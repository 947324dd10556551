/** The byte encoding of a manifest: printer, parser, and how far they invert each other. */
module ManifestCodec {
  import opened Common
  import opened Bytes
  import opened Framing
  import opened Sorting
  import opened ManifestModel
  import Utf8

  const LABEL := Ascii("4allpass-manifest-content-v1")

  function StripBom(s: seq<byte>): seq<byte> {
    if Utf8.StartsWithBom(s) then s[3..] else s
  }

  lemma StripShortens(s: seq<byte>)
    ensures StripBom(s) == s <==> !Utf8.StartsWithBom(s)
  {
    if Utf8.StartsWithBom(s) {
      assert |StripBom(s)| < |s|;
    }
  }

  // ---- One record: two strings and five numbers for the header, five fields per reference ----

  predicate HeaderReadable(f: Record) {
    && |f| == 7 && Utf8.WellFormed(f[0]) && Utf8.WellFormed(f[1])
    && |f[2]| == |f[3]| == |f[4]| == |f[5]| == |f[6]| == 4
  }

  function EntryCount(f: Record): nat
    requires HeaderReadable(f)
  {
    FromU32be(f[5])
  }

  function EnvelopeCount(f: Record): nat
    requires HeaderReadable(f)
  {
    FromU32be(f[6])
  }

  function ReadHeader(f: Record): Header
    requires HeaderReadable(f)
  {
    Header(StripBom(f[1]), FromU32be(f[3]), FromU32be(f[4]), FromU32be(f[2]))
  }

  function FiveNumbers(a: int, b: int, c: int, d: int, e: int): (ns: seq<int>)
    requires 0 <= a <= U32_MAX && 0 <= b <= U32_MAX && 0 <= c <= U32_MAX && 0 <= d <= U32_MAX && 0 <= e <= U32_MAX
    ensures AllU32(ns) && |ns| == 5 && ns[0] == a && ns[1] == b && ns[2] == c && ns[3] == d && ns[4] == e
  {
    [a, b, c, d, e]
  }

  function HeaderFields(text: seq<byte>, h: Header, entryCount: nat, envelopeCount: nat): Record
    requires HeaderOk(h) && entryCount <= U32_MAX && envelopeCount <= U32_MAX
  {
    [text, h.vaultId]
    + Numbers(FiveNumbers(h.cryptoProtocolVersion, h.revision, h.vaultKeyVersion, entryCount, envelopeCount))
  }

  predicate EntryReadable(f: Record) {
    |f| == 5 && Utf8.WellFormed(f[0]) && |f[1]| == |f[2]| == |f[3]| == 4 && |f[4]| == DIGEST_BYTES
  }

  function ReadEntry(f: Record): EntryRef
    requires EntryReadable(f)
  {
    EntryRef(StripBom(f[0]), FromU32be(f[1]), FromU32be(f[2]), FromU32be(f[3]), f[4])
  }

  predicate EntryPrintable(e: EntryRef) {
    EntryOk(e.vaultKeyVersion, e)
  }

  function EntryFields(e: EntryRef): Record
    requires EntryPrintable(e)
  {
    [e.id] + Numbers([e.schemaVersion, e.cryptoVersion, e.vaultKeyVersion]) + [e.digest]
  }

  predicate EnvelopeReadable(f: Record) {
    && |f| == 5 && Utf8.WellFormed(f[0]) && TypeOf(StripBom(f[0])).Some? && Utf8.WellFormed(f[1])
    && |f[2]| == |f[3]| == 4 && |f[4]| == DIGEST_BYTES
  }

  function ReadEnvelope(f: Record): EnvelopeRef
    requires EnvelopeReadable(f)
  {
    EnvelopeRef(TypeOf(StripBom(f[0])).value, StripBom(f[1]), FromU32be(f[2]), FromU32be(f[3]), f[4])
  }

  predicate EnvelopePrintable(v: EnvelopeRef) {
    EnvelopeOk(v.vaultKeyVersion, v)
  }

  function EnvelopeFields(v: EnvelopeRef): Record
    requires EnvelopePrintable(v)
  {
    [TypeName(v.kind), v.deviceId] + Numbers([v.vaultKeyVersion, v.deviceKeyVersion]) + [v.digest]
  }

  lemma NumberByNumber(fs: Record)
    requires AllFourBytes(fs)
    ensures forall i :: 0 <= i < |fs| ==> ReadNumbers(fs)[i] == FromU32be(fs[i])
  {
  }

  /** Reading a printed record, and printing a read one: both are the identity away from BOMs. */
  lemma EntryRecords(e: EntryRef)
    requires EntryPrintable(e)
    ensures EntryReadable(EntryFields(e)) && Fits(Long, EntryFields(e))
    ensures ReadEntry(EntryFields(e)) == e.(id := StripBom(e.id))
    ensures ReadEntry(EntryFields(e)) == e <==> !Utf8.StartsWithBom(e.id)
  {
    var ns := [e.schemaVersion, e.cryptoVersion, e.vaultKeyVersion];
    ReadInvertsNumbers(ns);
    NumberByNumber(Numbers(ns));
    StripShortens(e.id);
  }

  lemma EntryRecordsBack(f: Record)
    requires EntryReadable(f) && EntryPrintable(ReadEntry(f))
    ensures EntryFields(ReadEntry(f)) == f <==> !Utf8.StartsWithBom(f[0])
  {
    var ns := ReadNumbers(f[1..4]);
    NumbersInvertsRead(f[1..4]);
    assert [ns[0], ns[1], ns[2]] == ns;
    StripShortens(f[0]);
    assert EntryFields(ReadEntry(f)) == [StripBom(f[0])] + f[1..4] + [f[4]];
    assert f == [f[0]] + f[1..4] + [f[4]];
  }

  lemma EnvelopeRecords(v: EnvelopeRef)
    requires EnvelopePrintable(v)
    ensures EnvelopeReadable(EnvelopeFields(v)) && Fits(Long, EnvelopeFields(v))
    ensures ReadEnvelope(EnvelopeFields(v)) == v.(deviceId := StripBom(v.deviceId))
    ensures ReadEnvelope(EnvelopeFields(v)) == v <==> !Utf8.StartsWithBom(v.deviceId)
  {
    var ns := [v.vaultKeyVersion, v.deviceKeyVersion];
    ReadInvertsNumbers(ns);
    assert EnvelopeFields(v)[2..4] == Numbers(ns);
    TypeNamesDiffer(v.kind);
    TypeNamesPlain(v.kind);
    StripShortens(v.deviceId);
  }

  lemma EnvelopeRecordsBack(f: Record)
    requires EnvelopeReadable(f) && EnvelopePrintable(ReadEnvelope(f))
    ensures EnvelopeFields(ReadEnvelope(f)) == f <==> !Utf8.StartsWithBom(f[0]) && !Utf8.StartsWithBom(f[1])
  {
    var ns := ReadNumbers(f[2..4]);
    NumbersInvertsRead(f[2..4]);
    assert [ns[0], ns[1]] == ns;
    StripShortens(f[0]);
    StripShortens(f[1]);
    assert EnvelopeFields(ReadEnvelope(f)) == [StripBom(f[0]), StripBom(f[1])] + f[2..4] + [f[4]];
    assert f == [f[0], f[1]] + f[2..4] + [f[4]];
  }

  lemma HeaderShape(text: seq<byte>, vaultId: seq<byte>, numbers: Record)
    requires AllFourBytes(numbers) && |text| <= U32_MAX && |vaultId| <= U32_MAX
    ensures var f := [text, vaultId] + numbers;
      f[0] == text && f[1] == vaultId && f[2..] == numbers && Fits(Long, f)
  {
    var f := [text, vaultId] + numbers;
    forall i | 0 <= i < |f| ensures |f[i]| <= U32_MAX {
      assert i >= 2 ==> f[i] == numbers[i - 2];
    }
  }

  lemma HeaderRecords(text: seq<byte>, h: Header, entryCount: nat, envelopeCount: nat)
    requires HeaderOk(h) && entryCount <= U32_MAX && envelopeCount <= U32_MAX
    requires Utf8.WellFormed(text) && |text| <= U32_MAX
    ensures var f := HeaderFields(text, h, entryCount, envelopeCount);
      && HeaderReadable(f) && Fits(Long, f)
      && EntryCount(f) == entryCount && EnvelopeCount(f) == envelopeCount
      && ReadHeader(f) == h.(vaultId := StripBom(h.vaultId))
      && (ReadHeader(f) == h <==> !Utf8.StartsWithBom(h.vaultId))
  {
    var ns := FiveNumbers(h.cryptoProtocolVersion, h.revision, h.vaultKeyVersion, entryCount, envelopeCount);
    ReadInvertsNumbers(ns);
    HeaderShape(text, h.vaultId, Numbers(ns));
    StripShortens(h.vaultId);
  }

  lemma HeaderRecordsBack(f: Record)
    requires HeaderReadable(f) && HeaderOk(ReadHeader(f))
    ensures HeaderFields(StripBom(f[0]), ReadHeader(f), EntryCount(f), EnvelopeCount(f)) == f
      <==> !Utf8.StartsWithBom(f[0]) && !Utf8.StartsWithBom(f[1])
  {
    var ns := ReadNumbers(f[2..]);
    assert Numbers(FiveNumbers(ns[0], ns[1], ns[2], ns[3], ns[4])) == f[2..] by {
      NumbersInvertsRead(f[2..]);
      assert FiveNumbers(ns[0], ns[1], ns[2], ns[3], ns[4]) == ns;
    }
    StripShortens(f[0]);
    StripShortens(f[1]);
    var g := HeaderFields(StripBom(f[0]), ReadHeader(f), EntryCount(f), EnvelopeCount(f));
    assert g == [StripBom(f[0]), StripBom(f[1])] + f[2..];
    assert f == [f[0], f[1]] + f[2..];
  }

  // ---- The whole message as records ----

  datatype Raw = Raw(header: Record, entries: seq<Record>, envelopes: seq<Record>)

  predicate RawOk(raw: Raw) {
    && HeaderReadable(raw.header) && Fits(Long, raw.header)
    && EntryCount(raw.header) == |raw.entries| && EnvelopeCount(raw.header) == |raw.envelopes|
    && Records(5, raw.entries) && Records(5, raw.envelopes)
    && (forall f :: f in raw.entries ==> EntryReadable(f))
    && (forall f :: f in raw.envelopes ==> EnvelopeReadable(f))
  }

  function Print(raw: Raw): seq<byte>
    requires RawOk(raw)
  {
    Framed(Long, raw.header) + FramedRecords(5, raw.entries) + FramedRecords(5, raw.envelopes)
  }

  function ParseRaw(b: seq<byte>): Option<Raw> {
    var (header, afterHeader) :- ParseFields(7, b);
    if !HeaderReadable(header) then None
    else
      var (entries, afterEntries) :- ParseRecords(EntryCount(header), 5, afterHeader);
      var (envelopes, afterEnvelopes) :- ParseRecords(EnvelopeCount(header), 5, afterEntries);
      if (forall f :: f in entries ==> EntryReadable(f)) && (forall f :: f in envelopes ==> EnvelopeReadable(f))
         && afterEnvelopes == [] then Some(Raw(header, entries, envelopes))
      else None
  }

  lemma ParseInvertsPrint(raw: Raw)
    requires RawOk(raw)
    ensures ParseRaw(Print(raw)) == Some(raw)
  {
    var h, es, vs := Framed(Long, raw.header), FramedRecords(5, raw.entries), FramedRecords(5, raw.envelopes);
    ConcatFour(h, es, vs);
    ParsePrintedFields(raw.header, es + (vs + []));
    ParsePrintedRecords(5, raw.entries, vs + []);
    ParsePrintedRecords(5, raw.envelopes, []);
  }

  lemma PrintInvertsParse(b: seq<byte>)
    requires ParseRaw(b).Some?
    ensures RawOk(ParseRaw(b).value) && Print(ParseRaw(b).value) == b
  {
    PrintParsedFields(7, b);
    var (header, afterHeader) := ParseFields(7, b).value;
    PrintParsedRecords(EntryCount(header), 5, afterHeader);
    var (entries, afterEntries) := ParseRecords(EntryCount(header), 5, afterHeader).value;
    PrintParsedRecords(EnvelopeCount(header), 5, afterEntries);
    var (envelopes, afterEnvelopes) := ParseRecords(EnvelopeCount(header), 5, afterEntries).value;
    ConcatFour(Framed(Long, header), FramedRecords(5, entries), FramedRecords(5, envelopes));
  }

  lemma ConcatFour(h: seq<byte>, es: seq<byte>, vs: seq<byte>)
    ensures h + es + vs == h + (es + (vs + []))
  {
  }

  // ---- encodeManifest and decodeManifest as functions ----

  function EntriesToRecords(es: seq<EntryRef>): seq<Record>
    requires forall e :: e in es ==> EntryPrintable(e)
  {
    seq(|es|, i requires 0 <= i < |es| => EntryFields(es[i]))
  }

  function EnvelopesToRecords(vs: seq<EnvelopeRef>): seq<Record>
    requires forall v :: v in vs ==> EnvelopePrintable(v)
  {
    seq(|vs|, i requires 0 <= i < |vs| => EnvelopeFields(vs[i]))
  }

  function EntriesFromRecords(fs: seq<Record>): seq<EntryRef>
    requires forall f :: f in fs ==> EntryReadable(f)
  {
    seq(|fs|, i requires 0 <= i < |fs| => ReadEntry(fs[i]))
  }

  function EnvelopesFromRecords(fs: seq<Record>): seq<EnvelopeRef>
    requires forall f :: f in fs ==> EnvelopeReadable(f)
  {
    seq(|fs|, i requires 0 <= i < |fs| => ReadEnvelope(fs[i]))
  }

  predicate Printable(m: Manifest) {
    && HeaderOk(m.header) && |m.entries| <= U32_MAX && |m.envelopes| <= U32_MAX
    && (forall e :: e in m.entries ==> EntryPrintable(e))
    && (forall v :: v in m.envelopes ==> EnvelopePrintable(v))
  }

  lemma SoundIsPrintable(m: Manifest)
    requires Sound(m)
    ensures Printable(m)
  {
    forall e | e in m.entries ensures EntryPrintable(e) {
      assert EntryOk(m.header.vaultKeyVersion, e);
    }
    forall v | v in m.envelopes ensures EnvelopePrintable(v) {
      assert EnvelopeOk(m.header.vaultKeyVersion, v);
    }
  }

  /** The records of m under the content label `text`. */
  function ToRaw(text: seq<byte>, m: Manifest): Raw
    requires Printable(m)
  {
    Raw(HeaderFields(text, m.header, |m.entries|, |m.envelopes|), EntriesToRecords(m.entries),
      EnvelopesToRecords(m.envelopes))
  }

  function FromRaw(raw: Raw): Manifest
    requires RawOk(raw)
  {
    Manifest(ReadHeader(raw.header), EntriesFromRecords(raw.entries), EnvelopesFromRecords(raw.envelopes))
  }

  predicate IsText(s: seq<byte>) {
    Utf8.WellFormed(s) && |s| <= U32_MAX
  }

  lemma ToRawIsOk(text: seq<byte>, m: Manifest)
    requires Printable(m) && IsText(text)
    ensures RawOk(ToRaw(text, m))
  {
    HeaderRecords(text, m.header, |m.entries|, |m.envelopes|);
    var es, vs := EntriesToRecords(m.entries), EnvelopesToRecords(m.envelopes);
    forall i | 0 <= i < |es| ensures EntryReadable(es[i]) && |es[i]| == 5 && Fits(Long, es[i]) {
      EntryRecords(m.entries[i]);
    }
    forall i | 0 <= i < |vs| ensures EnvelopeReadable(vs[i]) && |vs[i]| == 5 && Fits(Long, vs[i]) {
      EnvelopeRecords(m.envelopes[i]);
    }
  }

  lemma LabelIsPlain()
    ensures IsText(LABEL) && !Utf8.StartsWithBom(LABEL) && |LABEL| == 28
  {
    Utf8.AsciiIsWellFormed(LABEL);
    assert LABEL[0] != Utf8.BOM[0];
  }

  function EncodeAs(text: seq<byte>, m: Manifest): Result<seq<byte>>
    requires IsText(text)
  {
    ValidateExact(m);
    var v :- Validate(m);
    SoundIsPrintable(v);
    ToRawIsOk(text, v);
    Ok(Print(ToRaw(text, v)))
  }

  function Encode(m: Manifest): Result<seq<byte>> {
    LabelIsPlain();
    EncodeAs(LABEL, m)
  }

  function DecodeAs(text: seq<byte>, b: seq<byte>): Result<Manifest> {
    match ParseRaw(b)
    case None => Err(Protocol)
    case Some(raw) =>
      PrintInvertsParse(b);
      var m := FromRaw(raw);
      if StripBom(raw.header[0]) != text || !Adjacent(EntryKey, m.entries) || !Adjacent(EnvelopeKey, m.envelopes)
      then Err(Protocol)
      else Validate(m)
  }

  function Decode(b: seq<byte>): Result<Manifest> {
    DecodeAs(LABEL, b)
  }

  // ---- The round trips, and exactly when they hold ----

  predicate CarriesBom(m: Manifest) {
    || Utf8.StartsWithBom(m.header.vaultId)
    || (exists e :: e in m.entries && Utf8.StartsWithBom(e.id))
    || (exists v :: v in m.envelopes && Utf8.StartsWithBom(v.deviceId))
  }

  predicate RawCarriesBom(raw: Raw)
    requires RawOk(raw)
  {
    || Utf8.StartsWithBom(raw.header[0]) || Utf8.StartsWithBom(raw.header[1])
    || (exists f :: f in raw.entries && Utf8.StartsWithBom(f[0]))
    || (exists f :: f in raw.envelopes && (Utf8.StartsWithBom(f[0]) || Utf8.StartsWithBom(f[1])))
  }

  /** A list maps to itself exactly when each element does. */
  lemma Pointwise<T>(s: seq<T>, t: seq<T>, good: T -> bool)
    requires |s| == |t| && forall i :: 0 <= i < |s| ==> (t[i] == s[i] <==> good(s[i]))
    ensures t == s <==> forall x :: x in s ==> good(x)
  {
    if t == s {
      forall x | x in s ensures good(x) {
        var i :| 0 <= i < |s| && s[i] == x;
        assert t[i] == s[i];
      }
    }
  }

  lemma FromRawOfToRaw(text: seq<byte>, m: Manifest)
    requires Printable(m) && IsText(text)
    ensures RawOk(ToRaw(text, m))
    ensures FromRaw(ToRaw(text, m)) == m <==> !CarriesBom(m)
  {
    ToRawIsOk(text, m);
    var w := FromRaw(ToRaw(text, m));
    HeaderRecords(text, m.header, |m.entries|, |m.envelopes|);
    forall i | 0 <= i < |m.entries| ensures w.entries[i] == m.entries[i] <==> !Utf8.StartsWithBom(m.entries[i].id) {
      EntryRecords(m.entries[i]);
    }
    Pointwise(m.entries, w.entries, (e: EntryRef) => !Utf8.StartsWithBom(e.id));
    forall i | 0 <= i < |m.envelopes|
      ensures w.envelopes[i] == m.envelopes[i] <==> !Utf8.StartsWithBom(m.envelopes[i].deviceId)
    {
      EnvelopeRecords(m.envelopes[i]);
    }
    Pointwise(m.envelopes, w.envelopes, (v: EnvelopeRef) => !Utf8.StartsWithBom(v.deviceId));
  }

  lemma ToRawOfFromRaw(raw: Raw)
    requires RawOk(raw) && Printable(FromRaw(raw))
    ensures ToRaw(StripBom(raw.header[0]), FromRaw(raw)) == raw <==> !RawCarriesBom(raw)
  {
    hide EntryReadable, EnvelopeReadable, EntryPrintable, EnvelopePrintable, ReadEntry, ReadEnvelope, EntryFields,
      EnvelopeFields, ReadHeader, HeaderFields, Fits;
    var m := FromRaw(raw);
    var again := ToRaw(StripBom(raw.header[0]), m);
    HeaderRecordsBack(raw.header);
    forall i | 0 <= i < |raw.entries|
      ensures again.entries[i] == raw.entries[i] <==> !Utf8.StartsWithBom(raw.entries[i][0])
    {
      assert m.entries[i] in m.entries;
      EntryRecordsBack(raw.entries[i]);
    }
    Pointwise(raw.entries, again.entries, (f: Record) => |f| == 5 && !Utf8.StartsWithBom(f[0]));
    forall i | 0 <= i < |raw.envelopes|
      ensures again.envelopes[i] == raw.envelopes[i]
        <==> !Utf8.StartsWithBom(raw.envelopes[i][0]) && !Utf8.StartsWithBom(raw.envelopes[i][1])
    {
      assert m.envelopes[i] in m.envelopes;
      EnvelopeRecordsBack(raw.envelopes[i]);
    }
    Pointwise(raw.envelopes, again.envelopes,
      (f: Record) => |f| == 5 && !Utf8.StartsWithBom(f[0]) && !Utf8.StartsWithBom(f[1]));
  }

  /** What decoding accepts it returns as read: it never re-sorts. */
  lemma DecodedAsRead(text: seq<byte>, raw: Raw)
    requires RawOk(raw)
    ensures var r := DecodeAs(text, Print(raw));
      && (r.Ok? <==> StripBom(raw.header[0]) == text && Canonical(FromRaw(raw)))
      && (r.Ok? ==> r.value == FromRaw(raw))
  {
    ParseInvertsPrint(raw);
    var m := FromRaw(raw);
    AdjacentMeansSorted(EntryKey, m.entries);
    AdjacentMeansSorted(EnvelopeKey, m.envelopes);
    ValidateExact(m);
    if Canonical(m) {
      ValidateCanonical(m);
    }
  }

  lemma BomIgnoresOrder(a: Manifest, b: Manifest)
    requires SameUpToOrder(a, b)
    ensures CarriesBom(a) <==> CarriesBom(b)
  {
    SameMembers(a.entries, b.entries);
    SameMembers(a.envelopes, b.envelopes);
  }

  lemma DecodeInvertsEncodeAs(text: seq<byte>, m: Manifest)
    requires Validate(m).Ok? && IsText(text) && !Utf8.StartsWithBom(text)
    ensures EncodeAs(text, m).Ok?
    ensures DecodeAs(text, EncodeAs(text, m).value) == Validate(m) <==> !CarriesBom(m)
  {
    hide RawOk, DecodeAs, CarriesBom;
    ValidateExact(m);
    var v := Validate(m).value;
    BomIgnoresOrder(m, v);
    SoundIsPrintable(v);
    FromRawOfToRaw(text, v);
    DecodedAsRead(text, ToRaw(text, v));
  }

  lemma EncodeInvertsDecodeAs(text: seq<byte>, b: seq<byte>)
    requires DecodeAs(text, b).Ok? && IsText(text)
    ensures ParseRaw(b).Some? && RawOk(ParseRaw(b).value)
    ensures EncodeAs(text, DecodeAs(text, b).value) == Ok(b) <==> !RawCarriesBom(ParseRaw(b).value)
  {
    PrintInvertsParse(b);
    var raw, m := ParseRaw(b).value, DecodeAs(text, b).value;
    DecodedAsRead(text, raw);
    ValidateCanonical(m);
    SoundIsPrintable(m);
    ToRawOfFromRaw(raw);
    ToRawIsOk(text, m);
    ParseInvertsPrint(ToRaw(text, m));
  }

  // ---- The other encodings ----

  /** One mark more where one leads already: what is left after decoding is the string itself. */
  function Doubled(s: seq<byte>): seq<byte> {
    if Utf8.StartsWithBom(s) then Utf8.BOM + s else s
  }

  lemma DoubledIsRead(s: seq<byte>)
    ensures StripBom(Doubled(s)) == s && |Doubled(s)| <= |s| + 3
    ensures Utf8.WellFormed(s) ==> Utf8.WellFormed(Doubled(s))
  {
    Utf8.BomKeepsWellFormed(s);
    assert (Utf8.BOM + s)[3..] == s;
  }

  predicate Shaped(raw: Raw) {
    && |raw.header| == 7
    && (forall f :: f in raw.entries ==> |f| == 5) && (forall f :: f in raw.envelopes ==> |f| == 5)
  }

  function Protected(raw: Raw): Raw
    requires Shaped(raw)
  {
    Raw(
      raw.header[1 := Doubled(raw.header[1])],
      seq(|raw.entries|, i requires 0 <= i < |raw.entries| => raw.entries[i][0 := Doubled(raw.entries[i][0])]),
      seq(|raw.envelopes|, i requires 0 <= i < |raw.envelopes| => raw.envelopes[i][1 := Doubled(raw.envelopes[i][1])]))
  }

  lemma ProtectedEntry(e: EntryRef)
    requires EntryPrintable(e)
    ensures |EntryFields(e)| == 5
    ensures var f := EntryFields(e)[0 := Doubled(e.id)]; EntryReadable(f) && Fits(Long, f) && ReadEntry(f) == e
  {
    EntryRecords(e);
    DoubledIsRead(e.id);
  }

  lemma ProtectedEnvelope(v: EnvelopeRef)
    requires EnvelopePrintable(v)
    ensures |EnvelopeFields(v)| == 5
    ensures var f := EnvelopeFields(v)[1 := Doubled(v.deviceId)];
      EnvelopeReadable(f) && Fits(Long, f) && ReadEnvelope(f) == v
  {
    EnvelopeRecords(v);
    DoubledIsRead(v.deviceId);
  }

  lemma ProtectedHeader(text: seq<byte>, h: Header, entryCount: nat, envelopeCount: nat)
    requires HeaderOk(h) && entryCount <= U32_MAX && envelopeCount <= U32_MAX && IsText(text)
    ensures |HeaderFields(text, h, entryCount, envelopeCount)| == 7
    ensures var f := HeaderFields(text, h, entryCount, envelopeCount)[1 := Doubled(h.vaultId)];
      && HeaderReadable(f) && Fits(Long, f) && f[0] == text
      && EntryCount(f) == entryCount && EnvelopeCount(f) == envelopeCount && ReadHeader(f) == h
  {
    HeaderRecords(text, h, entryCount, envelopeCount);
    DoubledIsRead(h.vaultId);
  }

  /** Protected like this, every manifest survives, whatever its strings start with. */
  lemma ProtectedReadsBack(text: seq<byte>, m: Manifest)
    requires Printable(m) && IsText(text)
    ensures Shaped(ToRaw(text, m)) && RawOk(Protected(ToRaw(text, m)))
    ensures FromRaw(Protected(ToRaw(text, m))) == m && Protected(ToRaw(text, m)).header[0] == text
  {
    hide EntryReadable, EnvelopeReadable, HeaderReadable, EntryPrintable, EnvelopePrintable, ReadEntry, ReadEnvelope,
      ReadHeader, EntryFields, EnvelopeFields, HeaderFields, Fits, Doubled;
    var raw := ToRaw(text, m);
    ProtectedHeader(text, m.header, |m.entries|, |m.envelopes|);
    forall i | 0 <= i < |m.entries|
      ensures |raw.entries[i]| == 5
      ensures var f := raw.entries[i][0 := Doubled(m.entries[i].id)];
        EntryReadable(f) && Fits(Long, f) && ReadEntry(f) == m.entries[i] && raw.entries[i][0] == m.entries[i].id
    {
      ProtectedEntry(m.entries[i]);
      FirstField(m.entries[i]);
    }
    forall i | 0 <= i < |m.envelopes|
      ensures |raw.envelopes[i]| == 5
      ensures var f := raw.envelopes[i][1 := Doubled(m.envelopes[i].deviceId)];
        && EnvelopeReadable(f) && Fits(Long, f) && ReadEnvelope(f) == m.envelopes[i]
        && raw.envelopes[i][1] == m.envelopes[i].deviceId
    {
      ProtectedEnvelope(m.envelopes[i]);
      SecondField(m.envelopes[i]);
    }
    assert raw.header[1] == m.header.vaultId by {
      SecondOfHeader(text, m.header, |m.entries|, |m.envelopes|);
    }
  }

  lemma FirstField(e: EntryRef)
    requires EntryPrintable(e)
    ensures EntryFields(e) != [] && EntryFields(e)[0] == e.id
  {
  }

  lemma SecondField(v: EnvelopeRef)
    requires EnvelopePrintable(v)
    ensures |EnvelopeFields(v)| > 1 && EnvelopeFields(v)[1] == v.deviceId
  {
  }

  lemma SecondOfHeader(text: seq<byte>, h: Header, entryCount: nat, envelopeCount: nat)
    requires HeaderOk(h) && entryCount <= U32_MAX && envelopeCount <= U32_MAX
    ensures var f := HeaderFields(text, h, entryCount, envelopeCount); |f| > 1 && f[1] == h.vaultId
  {
  }

  lemma TwoEncodingsAs(text: seq<byte>, m: Manifest) returns (a: seq<byte>, b: seq<byte>)
    requires Canonical(m) && IsText(text) && |text| + 3 <= U32_MAX && !Utf8.StartsWithBom(text)
    ensures DecodeAs(text, a) == DecodeAs(text, b) == Ok(m) && a != b
  {
    hide RawOk, DecodeAs, Print, ToRaw, FromRaw;
    SoundIsPrintable(m);
    Utf8.BomKeepsWellFormed(text);
    assert (Utf8.BOM + text)[3..] == text;
    ProtectedReadsBack(text, m);
    ProtectedReadsBack(Utf8.BOM + text, m);
    var plain, variant := Protected(ToRaw(text, m)), Protected(ToRaw(Utf8.BOM + text, m));
    DecodedAsRead(text, plain);
    DecodedAsRead(text, variant);
    a, b := Print(plain), Print(variant);
    ParseInvertsPrint(plain);
    ParseInvertsPrint(variant);
    assert |plain.header[0]| != |variant.header[0]|;
  }

  /** decode(encode(m)) is the canonical form of m, exactly when no string of m starts with a BOM. */
  lemma DecodeInvertsEncode(m: Manifest)
    requires Validate(m).Ok?
    ensures Encode(m).Ok?
    ensures Decode(Encode(m).value) == Validate(m) <==> !CarriesBom(m)
  {
    LabelIsPlain();
    DecodeInvertsEncodeAs(LABEL, m);
  }

  /** encode(decode(b)) is b, exactly when no string field of b starts with a BOM. */
  lemma EncodeInvertsDecode(b: seq<byte>)
    requires Decode(b).Ok?
    ensures ParseRaw(b).Some? && RawOk(ParseRaw(b).value)
    ensures Encode(Decode(b).value) == Ok(b) <==> !RawCarriesBom(ParseRaw(b).value)
  {
    LabelIsPlain();
    EncodeInvertsDecodeAs(LABEL, b);
  }

  /** Among inputs without a BOM, no two byte strings decode to one manifest. */
  lemma DecodeIsInjective(a: seq<byte>, b: seq<byte>)
    requires Decode(a).Ok? && Decode(a) == Decode(b)
    requires ParseRaw(a).Some? && RawOk(ParseRaw(a).value) && !RawCarriesBom(ParseRaw(a).value)
    requires ParseRaw(b).Some? && RawOk(ParseRaw(b).value) && !RawCarriesBom(ParseRaw(b).value)
    ensures a == b
  {
    EncodeInvertsDecode(a);
    EncodeInvertsDecode(b);
  }

  /** The family that breaks the promise is all of them: a BOM before the content label goes unnoticed. */
  lemma EveryManifestHasTwoEncodings(m: Manifest) returns (a: seq<byte>, b: seq<byte>)
    requires Canonical(m)
    ensures Decode(a) == Decode(b) == Ok(m) && a != b
  {
    LabelIsPlain();
    a, b := TwoEncodingsAs(LABEL, m);
  }

  /** So what decoding accepts is never accepted in one form only. */
  lemma NothingDecodesUniquely(b: seq<byte>) returns (other: seq<byte>)
    requires Decode(b).Ok?
    ensures other != b && Decode(other) == Decode(b)
  {
    PrintInvertsParse(b);
    ValidateExact(FromRaw(ParseRaw(b).value));
    var x, y := EveryManifestHasTwoEncodings(Decode(b).value);
    other := if x == b then y else x;
  }
}

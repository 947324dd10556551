/** encodeManifest and decodeManifest as they run: parts pushed one by one, a reader moving over the bytes. */
module ManifestWire {
  import opened Common
  import opened Bytes
  import opened Framing
  import opened Sorting
  import opened ManifestModel
  import opened ManifestCodec
  import Utf8

  method PushEntries(front: seq<byte>, es: seq<EntryRef>) returns (out: seq<byte>)
    requires forall e :: e in es ==> EntryPrintable(e)
    requires Records(5, EntriesToRecords(es))
    ensures out == front + FramedRecords(5, EntriesToRecords(es))
  {
    ghost var records := EntriesToRecords(es);
    out := front;
    for i := 0 to |es|
      invariant out + FramedRecords(5, records[i..]) == front + FramedRecords(5, records)
    {
      var part := Framed(Long, EntryFields(es[i]));
      PushStep(out, part, records[i..]);
      assert records[i..][1..] == records[i + 1..];
      out := out + part;
    }
    assert out + [] == out;
  }

  method PushEnvelopes(front: seq<byte>, vs: seq<EnvelopeRef>) returns (out: seq<byte>)
    requires forall v :: v in vs ==> EnvelopePrintable(v)
    requires Records(5, EnvelopesToRecords(vs))
    ensures out == front + FramedRecords(5, EnvelopesToRecords(vs))
  {
    ghost var records := EnvelopesToRecords(vs);
    out := front;
    for i := 0 to |vs|
      invariant out + FramedRecords(5, records[i..]) == front + FramedRecords(5, records)
    {
      var part := Framed(Long, EnvelopeFields(vs[i]));
      PushStep(out, part, records[i..]);
      assert records[i..][1..] == records[i + 1..];
      out := out + part;
    }
    assert out + [] == out;
  }

  lemma PushStep(out: seq<byte>, part: seq<byte>, records: seq<Record>)
    requires Records(5, records) && records != [] && part == Framed(Long, records[0])
    ensures (out + part) + FramedRecords(5, records[1..]) == out + FramedRecords(5, records)
  {
    hide Framed, Fits;
    var more := FramedRecords(5, records[1..]);
    assert (out + part) + more == out + (part + more);
  }

  method EncodeManifestAs(text: seq<byte>, m: Manifest) returns (r: Result<seq<byte>>)
    requires IsText(text)
    ensures r == EncodeAs(text, m)
  {
    var validated := ValidateManifest(m);
    if validated.Err? {
      return Err(validated.error);
    }
    var v := validated.value;
    ValidateExact(m);
    SoundIsPrintable(v);
    ToRawIsOk(text, v);
    var out := Framed(Long, HeaderFields(text, v.header, |v.entries|, |v.envelopes|));
    out := PushEntries(out, v.entries);
    out := PushEnvelopes(out, v.envelopes);
    return Ok(out);
  }

  method EncodeManifest(m: Manifest) returns (r: Result<seq<byte>>)
    ensures r == Encode(m)
  {
    LabelIsPlain();
    r := EncodeManifestAs(LABEL, m);
  }

  // ---- Fields taken so far from an input ----

  /** `taken` are the first fields of `from` and `rest` follows them. */
  ghost predicate Taken(from: seq<byte>, taken: Record, rest: seq<byte>) {
    Fits(Long, taken) && from == Framed(Long, taken) + rest
  }

  /** Whatever is read from `from`, its field number k is not good. */
  ghost predicate Stuck(from: seq<byte>, k: nat, good: seq<byte> -> bool) {
    forall n: nat :: n > k && ParseFields(n, from).Some? ==> !good(ParseFields(n, from).value.0[k])
  }

  lemma {:induction false} ParseAfterTaken(from: seq<byte>, taken: Record, rest: seq<byte>, n: nat)
    requires Taken(from, taken, rest) && n > |taken| && ParseFields(n, from).Some?
    ensures ParseField(rest).Some? && taken + [ParseField(rest).value.0] <= ParseFields(n, from).value.0
    decreases taken
  {
    hide U32be, FromU32be, ParseField;
    if taken == [] {
      assert from == rest;
    } else {
      TakenTail(from, taken, rest);
      var (_, more) := ParseField(from).value;
      ParseAfterTaken(more, taken[1..], rest, n - 1);
      assert taken == [taken[0]] + taken[1..];
    }
  }

  lemma TakenTail(from: seq<byte>, taken: Record, rest: seq<byte>)
    requires Taken(from, taken, rest) && taken != []
    ensures ParseField(from).Some? && ParseField(from).value.0 == taken[0]
    ensures Taken(ParseField(from).value.1, taken[1..], rest)
  {
    var back := Framed(Long, taken[1..]);
    var front := U32be(|taken[0]|) + taken[0];
    assert (front + back) + rest == front + (back + rest);
    ParsePrintedField(taken[0], back + rest);
  }

  lemma TakeOne(from: seq<byte>, taken: Record, rest: seq<byte>, good: seq<byte> -> bool)
    requires Taken(from, taken, rest)
    ensures match ParseField(rest)
            case None => Stuck(from, |taken|, good)
            case Some((field, rest')) =>
              Taken(from, taken + [field], rest') && (!good(field) ==> Stuck(from, |taken|, good))
  {
    forall n: nat | n > |taken| && ParseFields(n, from).Some?
      ensures ParseField(rest).Some? && ParseFields(n, from).value.0[|taken|] == ParseField(rest).value.0
    {
      ParseAfterTaken(from, taken, rest, n);
    }
    if ParseField(rest).Some? {
      PrintParsedField(rest);
      var (field, rest') := ParseField(rest).value;
      FramedSnoc(taken, field, rest');
    }
  }

  lemma {:induction false} FramedSnoc(taken: Record, field: seq<byte>, rest: seq<byte>)
    requires Fits(Long, taken) && |field| <= U32_MAX
    ensures Fits(Long, taken + [field])
    ensures Framed(Long, taken) + (U32be(|field|) + field + rest) == Framed(Long, taken + [field]) + rest
  {
    if taken == [] {
      assert taken + [field] == [field];
      FramedCons(field, [], rest);
    } else {
      FramedSnoc(taken[1..], field, rest);
      assert taken + [field] == [taken[0]] + (taken[1..] + [field]);
      FramedCons(taken[0], taken[1..] + [field], rest);
      var front := U32be(|taken[0]|) + taken[0];
      assert Framed(Long, taken) == front + Framed(Long, taken[1..]);
      assert (front + Framed(Long, taken[1..])) + (U32be(|field|) + field + rest)
        == front + (Framed(Long, taken[1..]) + (U32be(|field|) + field + rest));
    }
  }

  predicate IsUtf8(f: seq<byte>) {
    Utf8.WellFormed(f)
  }

  predicate IsNumber(f: seq<byte>) {
    |f| == 4
  }

  predicate IsDigest(f: seq<byte>) {
    |f| == DIGEST_BYTES
  }

  predicate IsKind(f: seq<byte>) {
    Utf8.WellFormed(f) && TypeOf(StripBom(f)).Some?
  }

  class FrameReader {
    const buf: seq<byte>
    var offset: nat
    ghost var from: seq<byte>  // where the record being read starts
    ghost var taken: Record    // its fields read so far

    ghost predicate Valid()
      reads this
    {
      offset <= |buf| && Taken(from, taken, Rest())
    }

    ghost function Rest(): seq<byte>
      requires offset <= |buf|
      reads this
    {
      buf[offset..]
    }

    constructor (bytes: seq<byte>)
      ensures Valid() && from == Rest() == bytes && taken == []
    {
      buf := bytes;
      offset := 0;
      from := bytes;
      taken := [];
    }

    ghost method StartRecord()
      requires Valid()
      modifies this`from, this`taken
      ensures Valid() && from == Rest() && taken == []
    {
      from := Rest();
      taken := [];
    }

    method ReadLength() returns (r: Result<nat>)
      requires offset <= |buf|
      modifies this`offset
      ensures offset <= |buf|
      ensures if |old(Rest())| < 4 then r == Err(Protocol)
              else r == Ok(FromU32be(old(Rest())[..4])) && Rest() == old(Rest())[4..]
    {
      if offset + 4 > |buf| {
        return Err(Protocol);
      }
      assert buf[offset..][..4] == buf[offset..offset + 4];
      var len := FromU32be(buf[offset..offset + 4]);
      offset := offset + 4;
      return Ok(len);
    }

    method ReadField() returns (r: Result<seq<byte>>)
      requires offset <= |buf|
      modifies this`offset
      ensures offset <= |buf|
      ensures match ParseField(old(Rest()))
              case None => r == Err(Protocol)
              case Some((field, rest)) => r == Ok(field) && Rest() == rest
    {
      ghost var b := Rest();
      var len := ReadLength();
      if len.Err? || offset + len.value > |buf| {
        return Err(Protocol);
      }
      var out := buf[offset..offset + len.value];
      offset := offset + len.value;
      assert b[4..4 + len.value] == out && b[4 + len.value..] == Rest();
      return Ok(out);
    }

    /** A field of the expected length; the reader is of no further use after a failure. */
    method ReadBytes(expected: nat, ghost good: seq<byte> -> bool) returns (r: Result<seq<byte>>)
      requires Valid() && forall f :: good(f) <==> |f| == expected
      modifies this`offset, this`taken
      ensures r.Ok? ==> Valid() && taken == old(taken) + [r.value] && |r.value| == expected
      ensures r.Err? ==> r.error == Protocol && Stuck(from, |old(taken)|, good)
    {
      TakeOne(from, taken, Rest(), good);
      var field := ReadField();
      if field.Err? || |field.value| != expected {
        return Err(Protocol);
      }
      taken := taken + [field.value];
      return field;
    }

    method ReadString() returns (r: Result<seq<byte>>, ghost raw: seq<byte>)
      requires Valid()
      modifies this`offset, this`taken
      ensures r.Ok? ==> Valid() && taken == old(taken) + [raw] && IsUtf8(raw) && r.value == StripBom(raw)
      ensures r.Err? ==> r.error == Protocol && Stuck(from, |old(taken)|, IsUtf8)
    {
      TakeOne(from, taken, Rest(), IsUtf8);
      r, raw := Err(Protocol), [];
      var field := ReadField();
      if field.Ok? {
        var text := Utf8.Decode(field.value);
        if text.Some? {
          raw := field.value;
          taken := taken + [raw];
          r := Ok(text.value);
        }
      }
    }

    /** A string that names an envelope type. */
    method ReadKind() returns (r: Result<EnvelopeType>, ghost raw: seq<byte>)
      requires Valid()
      modifies this`offset, this`taken
      ensures r.Ok? ==> Valid() && taken == old(taken) + [raw] && IsKind(raw) && Some(r.value) == TypeOf(StripBom(raw))
      ensures r.Err? ==> r.error == Protocol && Stuck(from, |old(taken)|, IsKind)
    {
      TakeOne(from, taken, Rest(), IsKind);
      r, raw := Err(Protocol), [];
      var field := ReadField();
      if field.Ok? {
        var text := Utf8.Decode(field.value);
        if text.Some? {
          var kind := TypeOf(text.value);
          if kind.Some? {
            raw := field.value;
            taken := taken + [raw];
            r := Ok(kind.value);
          }
        }
      }
    }

    method ReadU32() returns (r: Result<nat>, ghost raw: seq<byte>)
      requires Valid()
      modifies this`offset, this`taken
      ensures r.Ok? ==> Valid() && taken == old(taken) + [raw] && IsNumber(raw) && r.value == FromU32be(raw)
      ensures r.Err? ==> r.error == Protocol && Stuck(from, |old(taken)|, IsNumber)
    {
      var bytes := ReadBytes(4, IsNumber);
      r, raw := Err(Protocol), [];
      if bytes.Ok? {
        raw := bytes.value;
        r := Ok(FromU32be(bytes.value));
      }
    }

    /** Several numbers in a row. */
    method ReadU32s(count: nat) returns (r: Result<seq<int>>, ghost raws: Record)
      requires Valid()
      modifies this`offset, this`taken
      ensures r.Ok? ==> Valid() && taken == old(taken) + raws
      ensures r.Ok? ==> |raws| == count && AllFourBytes(raws) && r.value == Framing.ReadNumbers(raws)
      ensures r.Err? ==>
        r.error == Protocol && exists k: nat :: |old(taken)| <= k < |old(taken)| + count && Stuck(from, k, IsNumber)
    {
      var ns: seq<int> := [];
      raws := [];
      assert taken == old(taken) + raws;
      for i := 0 to count
        invariant Valid() && |raws| == i && AllFourBytes(raws) && ns == Framing.ReadNumbers(raws)
        invariant taken == old(taken) + raws
      {
        var n, raw := ReadU32();
        if n.Err? {
          assert Stuck(from, |old(taken)| + i, IsNumber);
          return Err(Protocol), raws;
        }
        assert old(taken) + (raws + [raw]) == old(taken) + raws + [raw];
        ns, raws := ns + [n.value], raws + [raw];
      }
      r := Ok(ns);
    }

    /** Several numbers and the digest that closes a record. */
    method ReadTail(count: nat) returns (r: Result<(seq<int>, seq<byte>)>, ghost raws: Record)
      requires Valid()
      modifies this`offset, this`taken
      ensures r.Ok? ==> Valid() && |raws| == count && AllFourBytes(raws) && IsDigest(r.value.1)
      ensures r.Ok? ==> taken == old(taken) + raws + [r.value.1] && r.value.0 == Framing.ReadNumbers(raws)
      ensures r.Err? ==> r.error == Protocol && TailStuck(from, |old(taken)|, count)
    {
      r := Err(Protocol);
      var ns, fs := ReadU32s(count);
      raws := fs;
      if ns.Ok? {
        var digest := ReadBytes(DIGEST_BYTES, IsDigest);
        if digest.Ok? {
          r := Ok((ns.value, digest.value));
        }
      }
    }
  }

  /** From field k on there are not `count` numbers and a digest. */
  ghost predicate TailStuck(from: seq<byte>, k: nat, count: nat) {
    (exists i: nat :: k <= i < k + count && Stuck(from, i, IsNumber)) || Stuck(from, k + count, IsDigest)
  }

  // ---- decodeManifest ----

  ghost predicate NoEntry(b: seq<byte>) {
    ParseFields(5, b).Some? ==> !EntryReadable(ParseFields(5, b).value.0)
  }

  ghost predicate NoEnvelope(b: seq<byte>) {
    ParseFields(5, b).Some? ==> !EnvelopeReadable(ParseFields(5, b).value.0)
  }

  lemma StuckEntry(b: seq<byte>)
    requires Stuck(b, 0, IsUtf8) || TailStuck(b, 1, 3)
    ensures NoEntry(b)
  {
  }

  lemma StuckEnvelope(b: seq<byte>)
    requires Stuck(b, 0, IsKind) || Stuck(b, 1, IsUtf8) || TailStuck(b, 2, 2)
    ensures NoEnvelope(b)
  {
  }

  lemma EntryOfParts(f: Record, f0: seq<byte>, fs: Record, digest: seq<byte>)
    requires f == [f0] + fs + [digest]
    requires |fs| == 3 && AllFourBytes(fs) && IsUtf8(f0) && IsDigest(digest)
    ensures EntryReadable(f)
    ensures ReadEntry(f) == EntryRef(StripBom(f0), FromU32be(fs[0]), FromU32be(fs[1]), FromU32be(fs[2]), digest)
  {
  }

  lemma EnvelopeOfParts(f: Record, f0: seq<byte>, f1: seq<byte>, fs: Record, digest: seq<byte>)
    requires f == [f0, f1] + fs + [digest]
    requires |fs| == 2 && AllFourBytes(fs) && IsKind(f0) && IsUtf8(f1) && IsDigest(digest)
    ensures EnvelopeReadable(f)
    ensures ReadEnvelope(f)
      == EnvelopeRef(TypeOf(StripBom(f0)).value, StripBom(f1), FromU32be(fs[0]), FromU32be(fs[1]), digest)
  {
  }

  /** The next five fields of the reader are those of one entry reference. */
  method ReadEntryRef(reader: FrameReader) returns (r: Result<EntryRef>)
    requires reader.Valid()
    modifies reader
    ensures reader.from == old(reader.Rest())
    ensures r.Ok? ==> reader.Valid() && EntryReadable(reader.taken) && r.value == ReadEntry(reader.taken)
    ensures r.Err? ==> r.error == Protocol && NoEntry(reader.from)
  {
    reader.StartRecord();
    var id, f0 := reader.ReadString();
    if id.Err? {
      StuckEntry(reader.from);
      return Err(Protocol);
    }
    assert reader.taken == [f0];
    var tail, fs := reader.ReadTail(3);
    if tail.Err? {
      StuckEntry(reader.from);
      return Err(Protocol);
    }
    var (ns, digest) := tail.value;
    EntryOfParts(reader.taken, f0, fs, digest);
    return Ok(EntryRef(id.value, ns[0], ns[1], ns[2], digest));
  }

  /** The next five fields of the reader are those of one envelope reference. */
  method ReadEnvelopeRef(reader: FrameReader) returns (r: Result<EnvelopeRef>)
    requires reader.Valid()
    modifies reader
    ensures reader.from == old(reader.Rest())
    ensures r.Ok? ==> reader.Valid() && EnvelopeReadable(reader.taken) && r.value == ReadEnvelope(reader.taken)
    ensures r.Err? ==> r.error == Protocol && NoEnvelope(reader.from)
  {
    reader.StartRecord();
    var kind, f0 := reader.ReadKind();
    if kind.Err? {
      StuckEnvelope(reader.from);
      return Err(Protocol);
    }
    var deviceId, f1 := reader.ReadString();
    if deviceId.Err? {
      StuckEnvelope(reader.from);
      return Err(Protocol);
    }
    assert reader.taken == [f0, f1];
    var tail, fs := reader.ReadTail(2);
    if tail.Err? {
      StuckEnvelope(reader.from);
      return Err(Protocol);
    }
    var (ns, digest) := tail.value;
    EnvelopeOfParts(reader.taken, f0, f1, fs, digest);
    return Ok(EnvelopeRef(kind.value, deviceId.value, ns[0], ns[1], digest));
  }

  // ---- The two loops ----

  ghost function PrependRecords(done: seq<Record>,
      p: Option<(seq<Record>, seq<byte>)>): Option<(seq<Record>, seq<byte>)> {
    match p
    case None => None
    case Some((records, rest)) => Some((done + records, rest))
  }

  /** The first records of `start` are `done`; the other records of n are still to be read from `rest`. */
  ghost predicate Progress(n: nat, start: seq<byte>, done: seq<Record>, rest: seq<byte>) {
    |done| <= n && ParseRecords(n, 5, start) == PrependRecords(done, ParseRecords(n - |done|, 5, rest))
  }

  lemma ProgressStarts(n: nat, start: seq<byte>)
    ensures Progress(n, start, [], start)
  {
    if ParseRecords(n, 5, start).Some? {
      assert [] + ParseRecords(n, 5, start).value.0 == ParseRecords(n, 5, start).value.0;
    }
  }

  lemma ParseOneRecord(n: nat, b: seq<byte>)
    requires n > 0
    ensures ParseRecords(n, 5, b) == match ParseFields(5, b)
            case None => None
            case Some((f, rest)) => PrependRecords([f], ParseRecords(n - 1, 5, rest))
  {
    hide ParseFields;
  }

  lemma PrependTwice(done: seq<Record>, f: Record, p: Option<(seq<Record>, seq<byte>)>)
    ensures PrependRecords(done, PrependRecords([f], p)) == PrependRecords(done + [f], p)
    ensures PrependRecords(done + [f], p).Some? ==> f in PrependRecords(done + [f], p).value.0
  {
    if p.Some? {
      assert done + ([f] + p.value.0) == (done + [f]) + p.value.0;
      assert ((done + [f]) + p.value.0)[|done|] == f;
    }
  }

  lemma ProgressStep(n: nat, start: seq<byte>, done: seq<Record>, rest: seq<byte>)
    requires Progress(n, start, done, rest) && |done| < n
    ensures match ParseFields(5, rest)
            case None => ParseRecords(n, 5, start) == None
            case Some((f, more)) =>
              && Progress(n, start, done + [f], more)
              && (ParseRecords(n, 5, start).Some? ==> f in ParseRecords(n, 5, start).value.0)
  {
    hide ParseFields, ParseRecords;
    ParseOneRecord(n - |done|, rest);
    if ParseFields(5, rest).Some? {
      var (f, more) := ParseFields(5, rest).value;
      PrependTwice(done, f, ParseRecords(n - |done| - 1, 5, more));
    }
  }

  lemma ProgressEnds(n: nat, start: seq<byte>, done: seq<Record>, rest: seq<byte>)
    requires Progress(n, start, done, rest) && |done| == n
    ensures ParseRecords(n, 5, start) == Some((done, rest))
  {
    assert done + [] == done;
  }

  method ReadEntries(reader: FrameReader, n: nat) returns (r: Result<seq<EntryRef>>, ghost records: seq<Record>)
    requires reader.Valid()
    modifies reader
    ensures r.Ok? ==> reader.Valid() && ParseRecords(n, 5, old(reader.Rest())) == Some((records, reader.Rest()))
    ensures r.Ok? ==> (forall f :: f in records ==> EntryReadable(f)) && r.value == EntriesFromRecords(records)
    ensures r.Err? ==> r.error == Protocol
    ensures r.Err? && ParseRecords(n, 5, old(reader.Rest())).Some? ==>
      exists f :: f in ParseRecords(n, 5, old(reader.Rest())).value.0 && !EntryReadable(f)
  {
    hide ParseRecords, ParseFields, EntryReadable, ReadEntry, Framed, Fits;
    ghost var start := reader.Rest();
    var entries: seq<EntryRef> := [];
    records := [];
    ProgressStarts(n, start);
    for i := 0 to n
      invariant reader.Valid() && |records| == i && Progress(n, start, records, reader.Rest())
      invariant forall f :: f in records ==> EntryReadable(f)
      invariant entries == EntriesFromRecords(records)
    {
      ghost var rest := reader.Rest();
      ProgressStep(n, start, records, rest);
      var e := ReadEntryRef(reader);
      if e.Err? {
        return Err(Protocol), records;
      }
      AllTaken(reader.from, reader.taken, reader.Rest());
      entries, records := entries + [e.value], records + [reader.taken];
    }
    ProgressEnds(n, start, records, reader.Rest());
    r := Ok(entries);
  }

  method ReadEnvelopes(reader: FrameReader, n: nat) returns (r: Result<seq<EnvelopeRef>>, ghost records: seq<Record>)
    requires reader.Valid()
    modifies reader
    ensures r.Ok? ==> reader.Valid() && ParseRecords(n, 5, old(reader.Rest())) == Some((records, reader.Rest()))
    ensures r.Ok? ==> (forall f :: f in records ==> EnvelopeReadable(f)) && r.value == EnvelopesFromRecords(records)
    ensures r.Err? ==> r.error == Protocol
    ensures r.Err? && ParseRecords(n, 5, old(reader.Rest())).Some? ==>
      exists f :: f in ParseRecords(n, 5, old(reader.Rest())).value.0 && !EnvelopeReadable(f)
  {
    hide ParseRecords, ParseFields, EnvelopeReadable, ReadEnvelope, Framed, Fits;
    ghost var start := reader.Rest();
    var envelopes: seq<EnvelopeRef> := [];
    records := [];
    ProgressStarts(n, start);
    for i := 0 to n
      invariant reader.Valid() && |records| == i && Progress(n, start, records, reader.Rest())
      invariant forall f :: f in records ==> EnvelopeReadable(f)
      invariant envelopes == EnvelopesFromRecords(records)
    {
      ghost var rest := reader.Rest();
      ProgressStep(n, start, records, rest);
      var v := ReadEnvelopeRef(reader);
      if v.Err? {
        return Err(Protocol), records;
      }
      AllTaken(reader.from, reader.taken, reader.Rest());
      envelopes, records := envelopes + [v.value], records + [reader.taken];
    }
    ProgressEnds(n, start, records, reader.Rest());
    r := Ok(envelopes);
  }

  lemma AllTaken(from: seq<byte>, taken: Record, rest: seq<byte>)
    requires Taken(from, taken, rest)
    ensures ParseFields(|taken|, from) == Some((taken, rest))
  {
    ParsePrintedFields(taken, rest);
  }

  lemma HeaderOfParts(f: Record, f0: seq<byte>, f1: seq<byte>, fs: Record)
    requires f == [f0, f1] + fs && |fs| == 5 && AllFourBytes(fs) && IsUtf8(f0) && IsUtf8(f1)
    ensures HeaderReadable(f) && f[0] == f0
    ensures ReadHeader(f) == Header(StripBom(f1), FromU32be(fs[1]), FromU32be(fs[2]), FromU32be(fs[0]))
    ensures EntryCount(f) == FromU32be(fs[3]) && EnvelopeCount(f) == FromU32be(fs[4])
  {
  }

  /** The fields at the front of b are no header under the content label `text`. */
  ghost predicate NoHeaderAs(text: seq<byte>, b: seq<byte>) {
    ParseFields(7, b).Some? ==>
      var f := ParseFields(7, b).value.0; HeaderReadable(f) ==> StripBom(f[0]) != text
  }

  lemma NoHeaderNoManifest(text: seq<byte>, b: seq<byte>)
    requires NoHeaderAs(text, b)
    ensures DecodeAs(text, b) == Err(Protocol)
  {
  }

  lemma StuckHeader(text: seq<byte>, b: seq<byte>, k: nat)
    requires (k < 2 && Stuck(b, k, IsUtf8)) || (2 <= k < 7 && Stuck(b, k, IsNumber))
    ensures NoHeaderAs(text, b)
  {
  }

  /** The content label, the header and the two counts. */
  method ReadManifestHeader(reader: FrameReader, text: seq<byte>) returns (r: Result<(Header, nat, nat)>)
    requires reader.Valid() && reader.taken == []
    modifies reader
    ensures reader.from == old(reader.from)
    ensures r.Ok? ==> reader.Valid() && HeaderReadable(reader.taken) && StripBom(reader.taken[0]) == text
    ensures r.Ok? ==> r.value == (ReadHeader(reader.taken), EntryCount(reader.taken), EnvelopeCount(reader.taken))
    ensures r.Err? ==> r.error == Protocol && NoHeaderAs(text, reader.from)
  {
    var heading, f0 := reader.ReadString();
    if heading.Err? {
      StuckHeader(text, reader.from, 0);
      return Err(Protocol);
    }
    assert reader.taken == [f0];
    if heading.value != text {
      AlreadyTaken(reader.from, reader.taken, reader.Rest(), 7);
      return Err(Protocol);
    }
    var vaultId, f1 := reader.ReadString();
    if vaultId.Err? {
      StuckHeader(text, reader.from, 1);
      return Err(Protocol);
    }
    assert reader.taken == [f0, f1];
    var ns, fs := reader.ReadU32s(5);
    if ns.Err? {
      ghost var k: nat :| 2 <= k < 7 && Stuck(reader.from, k, IsNumber);
      StuckHeader(text, reader.from, k);
      return Err(Protocol);
    }
    HeaderOfParts(reader.taken, f0, f1, fs);
    return Ok((Header(vaultId.value, ns.value[1], ns.value[2], ns.value[0]), ns.value[3], ns.value[4]));
  }

  lemma AlreadyTaken(from: seq<byte>, taken: Record, rest: seq<byte>, n: nat)
    requires Taken(from, taken, rest) && n > |taken|
    ensures ParseFields(n, from).Some? ==> taken <= ParseFields(n, from).value.0
  {
    if ParseFields(n, from).Some? {
      ParseAfterTaken(from, taken, rest, n);
    }
  }

  /** Both loops and the check that nothing follows. */
  method ReadBody(reader: FrameReader, ghost bytes: seq<byte>, ghost header: Record, entryCount: nat,
      envelopeCount: nat)
    returns (r: Result<(seq<EntryRef>, seq<EnvelopeRef>)>)
    requires reader.Valid() && HeaderReadable(header) && ParseFields(7, bytes) == Some((header, reader.Rest()))
    requires entryCount == EntryCount(header) && envelopeCount == EnvelopeCount(header)
    modifies reader
    ensures r.Ok? ==> ParseRaw(bytes).Some? && ParseRaw(bytes).value.header == header && RawOk(ParseRaw(bytes).value)
    ensures r.Ok? ==> r.value.0 == FromRaw(ParseRaw(bytes).value).entries
    ensures r.Ok? ==> r.value.1 == FromRaw(ParseRaw(bytes).value).envelopes
    ensures r.Err? ==> ParseRaw(bytes).None?
  {
    var entries, entryRecords := ReadEntries(reader, entryCount);
    if entries.Err? {
      return Err(Protocol);
    }
    var envelopes, envelopeRecords := ReadEnvelopes(reader, envelopeCount);
    if envelopes.Err? || reader.offset != |reader.buf| {
      return Err(Protocol);
    }
    assert ParseRaw(bytes) == Some(Raw(header, entryRecords, envelopeRecords));
    PrintInvertsParse(bytes);
    return Ok((entries.value, envelopes.value));
  }

  method DecodeManifestAs(text: seq<byte>, bytes: seq<byte>) returns (r: Result<Manifest>)
    ensures r == DecodeAs(text, bytes)
  {
    var reader := new FrameReader(bytes);
    var head := ReadManifestHeader(reader, text);
    if head.Err? {
      NoHeaderNoManifest(text, bytes);
      return Err(Protocol);
    }
    AllTaken(bytes, reader.taken, reader.Rest());
    var (h, entryCount, envelopeCount) := head.value;
    if !HeaderOk(h) || entryCount > ENTRIES_MAX || envelopeCount > ENVELOPES_MAX {
      BadHeaderFails(text, bytes);
      return Err(Protocol);
    }
    var body := ReadBody(reader, bytes, reader.taken, entryCount, envelopeCount);
    if body.Err? {
      return Err(Protocol);
    }
    var m := Manifest(h, body.value.0, body.value.1);
    assert m == FromRaw(ParseRaw(bytes).value);
    if !Adjacent(EntryKey, m.entries) || !Adjacent(EnvelopeKey, m.envelopes) {
      return Err(Protocol);
    }
    r := ValidateManifest(m);
  }

  lemma ParsedHeader(b: seq<byte>)
    requires ParseRaw(b).Some?
    ensures ParseFields(7, b).Some? && ParseRaw(b).value.header == ParseFields(7, b).value.0
    ensures RawOk(ParseRaw(b).value)
    ensures var raw := ParseRaw(b).value;
      |raw.entries| == EntryCount(raw.header) && |raw.envelopes| == EnvelopeCount(raw.header)
  {
    PrintInvertsParse(b);
  }

  lemma BadHeaderFails(text: seq<byte>, b: seq<byte>)
    requires ParseFields(7, b).Some?
    requires var f := ParseFields(7, b).value.0;
      HeaderReadable(f)
      && (!HeaderOk(ReadHeader(f)) || EntryCount(f) > ENTRIES_MAX || EnvelopeCount(f) > ENVELOPES_MAX)
    ensures DecodeAs(text, b) == Err(Protocol)
  {
    hide ParseRaw, ParseFields, Adjacent, HeaderReadable, EntryCount, EnvelopeCount, ReadHeader, HeaderOk;
    if ParseRaw(b).Some? {
      ParsedHeader(b);
      assert Validate(FromRaw(ParseRaw(b).value)) == Err(Protocol);
    }
  }

  method DecodeManifest(bytes: seq<byte>) returns (r: Result<Manifest>)
    ensures r == Decode(bytes)
  {
    r := DecodeManifestAs(LABEL, bytes);
  }
}

/** Length-prefixed framing: 4-byte prefixes for digests and manifests, 2-byte prefixes for AAD. */
module Framing {
  import opened Common
  import opened Bytes

  datatype Prefix = Short | Long

  function MaxLength(p: Prefix): nat {
    if p == Short then 0xffff else U32_MAX
  }

  function PrefixWidth(p: Prefix): nat {
    if p == Short then 2 else 4
  }

  function LengthPrefix(p: Prefix, n: nat): (b: seq<byte>)
    requires n <= MaxLength(p)
    ensures |b| == PrefixWidth(p)
  {
    if p == Short then [n / 256, n % 256] else U32be(n)
  }

  predicate Fits(p: Prefix, fields: seq<seq<byte>>) {
    forall i :: 0 <= i < |fields| ==> |fields[i]| <= MaxLength(p)
  }

  function Framed(p: Prefix, fields: seq<seq<byte>>): seq<byte>
    requires Fits(p, fields)
  {
    if fields == [] then []
    else LengthPrefix(p, |fields[0]|) + fields[0] + Framed(p, fields[1..])
  }

  lemma LengthPrefixInjective(p: Prefix, m: nat, n: nat)
    requires m <= MaxLength(p) && n <= MaxLength(p)
    requires LengthPrefix(p, m) == LengthPrefix(p, n)
    ensures m == n
  {
    if p == Short {
      assert m == m / 256 * 256 + m % 256;
      assert LengthPrefix(p, m)[0] == LengthPrefix(p, n)[0] && LengthPrefix(p, m)[1] == LengthPrefix(p, n)[1];
    } else {
      U32RoundTrip(m);
      U32RoundTrip(n);
    }
  }

  /** No two field lists share a framing. */
  lemma {:induction false} FramedInjective(p: Prefix, a: seq<seq<byte>>, b: seq<seq<byte>>)
    requires Fits(p, a) && Fits(p, b)
    requires Framed(p, a) == Framed(p, b)
    ensures a == b
  {
    if a != [] && b != [] {
      var w := PrefixWidth(p);
      var fa, fb := Framed(p, a), Framed(p, b);
      assert fa[..w] == LengthPrefix(p, |a[0]|) && fb[..w] == LengthPrefix(p, |b[0]|);
      LengthPrefixInjective(p, |a[0]|, |b[0]|);
      assert fa[w..w + |a[0]|] == a[0] && fb[w..w + |a[0]|] == b[0];
      assert fa[w + |a[0]|..] == Framed(p, a[1..]) && fb[w + |a[0]|..] == Framed(p, b[1..]);
      FramedInjective(p, a[1..], b[1..]);
      assert a == [a[0]] + a[1..] && b == [b[0]] + b[1..];
    }
  }

  /** One field off the front: its bytes and what follows. */
  function ParseField(b: seq<byte>): Option<(seq<byte>, seq<byte>)> {
    if |b| < 4 then None
    else
      var n := FromU32be(b[..4]);
      if |b| < 4 + n then None else Some((b[4..4 + n], b[4 + n..]))
  }

  lemma ParsePrintedField(field: seq<byte>, rest: seq<byte>)
    requires |field| <= U32_MAX
    ensures ParseField(U32be(|field|) + field + rest) == Some((field, rest))
  {
    var b := U32be(|field|) + field + rest;
    U32RoundTrip(|field|);
    assert b[..4] == U32be(|field|);
    assert b[4..4 + |field|] == field && b[4 + |field|..] == rest;
  }

  lemma PrintParsedField(b: seq<byte>)
    requires ParseField(b).Some?
    ensures var (field, rest) := ParseField(b).value;
      |field| <= U32_MAX && b == U32be(|field|) + field + rest
  {
    U32Unique(b[..4]);
    var n := FromU32be(b[..4]);
    assert b == b[..4] + b[4..4 + n] + b[4 + n..];
  }

  function ParseFields(n: nat, b: seq<byte>): (r: Option<(seq<seq<byte>>, seq<byte>)>)
    ensures r.Some? ==> |r.value.0| == n
  {
    if n == 0 then Some(([], b))
    else
      var (field, rest) :- ParseField(b);
      var (fields, rest') :- ParseFields(n - 1, rest);
      Some(([field] + fields, rest'))
  }

  lemma FramedCons(field: seq<byte>, fields: seq<seq<byte>>, rest: seq<byte>)
    requires |field| <= U32_MAX && Fits(Long, fields)
    ensures Fits(Long, [field] + fields)
    ensures Framed(Long, [field] + fields) + rest == U32be(|field|) + field + (Framed(Long, fields) + rest)
  {
    assert ([field] + fields)[1..] == fields;
    var front, back := U32be(|field|) + field, Framed(Long, fields);
    assert Framed(Long, [field] + fields) == front + back;
    assert front + (back + rest) == (front + back) + rest;
  }

  lemma {:induction false} PrintParsedFields(n: nat, b: seq<byte>)
    requires ParseFields(n, b).Some?
    ensures var (fields, rest) := ParseFields(n, b).value;
      Fits(Long, fields) && b == Framed(Long, fields) + rest
  {
    if n > 0 {
      PrintParsedField(b);
      var (field, rest) := ParseField(b).value;
      PrintParsedFields(n - 1, rest);
      var (fields, rest') := ParseFields(n - 1, rest).value;
      FramedCons(field, fields, rest');
    }
  }

  lemma {:induction false} ParsePrintedFields(fields: seq<seq<byte>>, rest: seq<byte>)
    requires Fits(Long, fields)
    ensures ParseFields(|fields|, Framed(Long, fields) + rest) == Some((fields, rest))
  {
    if fields == [] {
      assert Framed(Long, fields) + rest == rest;
    } else {
      var more := Framed(Long, fields[1..]) + rest;
      ParsePrintedField(fields[0], more);
      ParsePrintedFields(fields[1..], rest);
      assert Framed(Long, fields) + rest == U32be(|fields[0]|) + fields[0] + more;
      assert fields == [fields[0]] + fields[1..];
    }
  }

  // ---- Number fields ----

  predicate AllU32(ns: seq<int>) {
    forall i :: 0 <= i < |ns| ==> 0 <= ns[i] <= U32_MAX
  }

  predicate AllFourBytes(fs: seq<seq<byte>>) {
    forall i :: 0 <= i < |fs| ==> |fs[i]| == 4
  }

  function Numbers(ns: seq<int>): (fs: seq<seq<byte>>)
    requires AllU32(ns)
    ensures |fs| == |ns| && AllFourBytes(fs)
  {
    seq(|ns|, i requires 0 <= i < |ns| => U32be(ns[i]))
  }

  function ReadNumbers(fs: seq<seq<byte>>): (ns: seq<int>)
    requires AllFourBytes(fs)
    ensures |ns| == |fs| && AllU32(ns)
  {
    seq(|fs|, i requires 0 <= i < |fs| => FromU32be(fs[i]))
  }

  lemma ReadInvertsNumbers(ns: seq<int>)
    requires AllU32(ns)
    ensures ReadNumbers(Numbers(ns)) == ns
  {
    forall i | 0 <= i < |ns| ensures FromU32be(Numbers(ns)[i]) == ns[i] {
      U32RoundTrip(ns[i]);
    }
  }

  lemma NumbersInvertsRead(fs: seq<seq<byte>>)
    requires AllFourBytes(fs)
    ensures Numbers(ReadNumbers(fs)) == fs
  {
    forall i | 0 <= i < |fs| ensures U32be(ReadNumbers(fs)[i]) == fs[i] {
      U32Unique(fs[i]);
    }
  }

  // ---- Records of a fixed number of fields, one after the other ----

  type Record = seq<seq<byte>>

  predicate Records(size: nat, rs: seq<Record>) {
    forall i :: 0 <= i < |rs| ==> |rs[i]| == size && Fits(Long, rs[i])
  }

  function FramedRecords(size: nat, rs: seq<Record>): seq<byte>
    requires Records(size, rs)
  {
    if rs == [] then [] else Framed(Long, rs[0]) + FramedRecords(size, rs[1..])
  }

  function ParseRecords(n: nat, size: nat, b: seq<byte>): (r: Option<(seq<Record>, seq<byte>)>)
    ensures r.Some? ==> |r.value.0| == n
  {
    if n == 0 then Some(([], b))
    else
      var (record, rest) :- ParseFields(size, b);
      var (records, rest') :- ParseRecords(n - 1, size, rest);
      Some(([record] + records, rest'))
  }

  lemma {:induction false} PrintParsedRecords(n: nat, size: nat, b: seq<byte>)
    requires ParseRecords(n, size, b).Some?
    ensures var (records, rest) := ParseRecords(n, size, b).value;
      Records(size, records) && b == FramedRecords(size, records) + rest
  {
    if n > 0 {
      PrintParsedFields(size, b);
      var (record, rest) := ParseFields(size, b).value;
      PrintParsedRecords(n - 1, size, rest);
      var (records, rest') := ParseRecords(n - 1, size, rest).value;
      assert ([record] + records)[1..] == records;
      var front, back := Framed(Long, record), FramedRecords(size, records);
      assert front + (back + rest') == (front + back) + rest';
    }
  }

  lemma {:induction false} ParsePrintedRecords(size: nat, rs: seq<Record>, rest: seq<byte>)
    requires Records(size, rs)
    ensures ParseRecords(|rs|, size, FramedRecords(size, rs) + rest) == Some((rs, rest))
  {
    if rs == [] {
      assert FramedRecords(size, rs) + rest == rest;
    } else {
      var more := FramedRecords(size, rs[1..]) + rest;
      ParsePrintedFields(rs[0], more);
      ParsePrintedRecords(size, rs[1..], rest);
      var front, back := Framed(Long, rs[0]), FramedRecords(size, rs[1..]);
      assert (front + back) + rest == front + (back + rest);
      assert rs == [rs[0]] + rs[1..];
    }
  }
}

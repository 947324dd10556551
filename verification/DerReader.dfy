/**
 * The DER reader of the Firefox import, and the encodings it accepts (section 8.1.3 of ITU-T X.690, definite lengths).
 */
module DerReader {
  import opened Common
  import opened Bytes

  const SEQUENCE := 0x30
  const OCTET_STRING := 0x04
  const INTEGER := 0x02

  datatype Der = Seq(items: seq<Der>) | Octet(body: seq<byte>) | Int(value: int) | Other

  // ---- Lengths ----

  function BigEndian(b: seq<byte>): (n: nat)
  {
    if b == [] then 0 else BigEndian(b[..|b| - 1]) * 256 + b[|b| - 1]
  }

  /** Octets of the length field, and the length it states. */
  function TakeLen(data: seq<byte>): (r: Option<(nat, nat)>)
    ensures r.Some? ==> 1 <= r.value.0 <= |data|
  {
    if data == [] then None
    else if data[0] < 0x80 then Some((1, data[0]))
    else
      var n: int := data[0] - 0x80;
      if n == 0 || n > 4 || |data| < 1 + n then None else Some((1 + n, BigEndian(data[1..1 + n])))
  }

  method ReadLen(data: seq<byte>) returns (r: Option<(nat, nat)>)
    ensures r == TakeLen(data)
  {
    if data == [] {
      return None;
    }
    if data[0] < 0x80 {
      return Some((1, data[0]));
    }
    var n: int := data[0] - 0x80;
    if n == 0 || n > 4 || |data| < 1 + n {
      return None;
    }
    var octets, len: nat := data[1..1 + n], 0;
    for i := 0 to n
      invariant len == BigEndian(octets[..i])
    {
      len := len * 256 + octets[i];
      assert octets[..i + 1][..i] == octets[..i];
    }
    assert octets[..n] == octets;
    return Some((1 + n, len));
  }

  // ---- Integers: a signed 64-bit accumulator ----

  const TWO_63 := 0x8000_0000_0000_0000
  const TWO_64 := 0x1_0000_0000_0000_0000

  function Wrap64(n: int): (w: int)
    ensures -TWO_63 <= w < TWO_63
  {
    var m := n % TWO_64;
    if m < TWO_63 then m else m - TWO_64
  }

  /** n = (n << 8) | b, from zero. */
  function Accumulated(b: seq<byte>): int {
    if b == [] then 0 else Wrap64(Accumulated(b[..|b| - 1]) * 256 + b[|b| - 1])
  }

  method ReadInt(body: seq<byte>) returns (n: int)
    ensures n == Accumulated(body)
  {
    n := 0;
    for i := 0 to |body|
      invariant n == Accumulated(body[..i])
    {
      n := Wrap64(n * 256 + body[i]);
      assert body[..i + 1][..i] == body[..i];
    }
    assert body[..|body|] == body;
  }

  lemma WrapOnce(n: int, b: int)
    ensures Wrap64(Wrap64(n) * 256 + b) == Wrap64(n * 256 + b)
  {
    var q := n / TWO_64;
    var m := n % TWO_64;
    assert n == q * TWO_64 + m;
    if m < TWO_63 {
      WrapMultiple(m * 256 + b, q * 256);
    } else {
      WrapMultiple((m - TWO_64) * 256 + b, q * 256 + 256);
    }
  }

  lemma WrapMultiple(n: int, k: int)
    ensures Wrap64(n + k * TWO_64) == Wrap64(n)
  {
    assert (n + k * TWO_64) % TWO_64 == n % TWO_64;
  }

  /** The value is the unsigned number modulo 2^64, read as signed. */
  lemma {:induction false} IntegerMeans(b: seq<byte>)
    ensures Accumulated(b) == Wrap64(BigEndian(b))
  {
    if b != [] {
      IntegerMeans(b[..|b| - 1]);
      WrapOnce(BigEndian(b[..|b| - 1]), b[|b| - 1]);
    }
  }

  lemma SevenOctets(b: seq<byte>)
    requires |b| <= 7
    ensures BigEndian(b) < TWO_63
  {
    BigEndianBound(b);
  }

  lemma {:induction false} BigEndianBound(b: seq<byte>)
    ensures |b| == 0 ==> BigEndian(b) == 0
    ensures |b| <= 1 ==> BigEndian(b) < 0x100
    ensures |b| <= 2 ==> BigEndian(b) < 0x1_0000
    ensures |b| <= 3 ==> BigEndian(b) < 0x100_0000
    ensures |b| <= 4 ==> BigEndian(b) < 0x1_0000_0000
    ensures |b| <= 5 ==> BigEndian(b) < 0x100_0000_0000
    ensures |b| <= 6 ==> BigEndian(b) < 0x1_0000_0000_0000
    ensures |b| <= 7 ==> BigEndian(b) < 0x100_0000_0000_0000
  {
    if b != [] {
      BigEndianBound(b[..|b| - 1]);
    }
  }

  /** An INTEGER reads as its unsigned value exactly if that is below 2^63; seven octets always are. */
  lemma IntegerIsExact(b: seq<byte>)
    ensures Accumulated(b) == BigEndian(b) <==> BigEndian(b) < TWO_63
    ensures |b| <= 7 ==> Accumulated(b) == BigEndian(b)
  {
    IntegerMeans(b);
    if |b| <= 7 {
      SevenOctets(b);
    }
  }

  // ---- The same octets in two's complement (section 8.3 of ITU-T X.690) ----

  function Pow256(n: nat): (p: nat)
    ensures p > 0
  {
    if n == 0 then 1 else 256 * Pow256(n - 1)
  }

  /** What an INTEGER with these contents is; no octets at all, which the standard rules out, count as zero. */
  function TwosComplement(b: seq<byte>): int {
    if b != [] && b[0] >= 0x80 then BigEndian(b) - Pow256(|b|) else BigEndian(b)
  }

  lemma EightOctetsWrap(n: nat) returns (k: nat)
    requires n >= 8
    ensures Pow256(n) == k * TWO_64
  {
    if n == 8 {
      k := 1;
      assert Pow256(4) == 0x1_0000_0000 by {
        assert Pow256(2) == 0x1_0000;
      }
      assert Pow256(6) == 0x1_0000_0000_0000 && Pow256(8) == TWO_64;
    } else {
      var before := EightOctetsWrap(n - 1);
      k := 256 * before;
    }
  }

  /** The part of the wrapping that matters: from eight octets on the two readings agree modulo 2^64. */
  lemma LongIntegerMeans(b: seq<byte>)
    requires |b| >= 8
    ensures Accumulated(b) == Wrap64(TwosComplement(b))
  {
    hide BigEndian, Accumulated, Pow256, Wrap64;
    IntegerMeans(b);
    if b[0] >= 0x80 {
      var k := EightOctetsWrap(|b|);
      WrapMultiple(TwosComplement(b), k);
    }
  }

  /**
   * An INTEGER reads as what the standard says exactly if: up to seven octets, it is not negative; from eight octets
   * on, it fits into 64 bits.
   */
  lemma IntegerIsStandard(b: seq<byte>)
    ensures Accumulated(b) == TwosComplement(b)
      <==> if |b| <= 7 then b == [] || b[0] < 0x80 else -TWO_63 <= TwosComplement(b) < TWO_63
  {
    hide Accumulated, BigEndian, Pow256;
    if |b| <= 7 {
      IntegerIsExact(b);
    } else {
      LongIntegerMeans(b);
    }
  }

  /** The shortest negative number is misread; eight octets of ones are not. */
  lemma NegativeIntegers()
    ensures Accumulated([0x80]) == 128 && TwosComplement([0x80]) == -128
    ensures var ones: seq<byte> := [0xFF, 0xFF, 0xFF, 0xFF, 0xFF, 0xFF, 0xFF, 0xFF];
      Accumulated(ones) == TwosComplement(ones) == -1
  {
    IntegerIsExact([0x80]);
    assert BigEndian([0x80]) == 128 && Pow256(1) == 256;
    var ones := Ones(8);
    AllOnes(8);
    assert ones == [0xFF, 0xFF, 0xFF, 0xFF, 0xFF, 0xFF, 0xFF, 0xFF];
    assert TwosComplement(ones) == -1;
    IntegerIsStandard(ones);
  }

  function Ones(n: nat): (b: seq<byte>)
    ensures |b| == n
  {
    seq(n, _ => 0xFF)
  }

  lemma {:induction false} AllOnes(n: nat)
    ensures BigEndian(Ones(n)) == Pow256(n) - 1
  {
    if n > 0 {
      AllOnes(n - 1);
      assert Ones(n)[..n - 1] == Ones(n - 1);
    }
  }

  // ---- parse_der ----

  /** One value and what follows it. */
  function Parse(data: seq<byte>): (r: Option<(Der, seq<byte>)>)
    ensures r.Some? ==> |r.value.1| < |data|
    decreases |data|, 0
  {
    if data == [] then None
    else
      var (lh, len) :- TakeLen(data[1..]);
      var end := 1 + lh + len;
      if |data| < end then None
      else
        var body, rest := data[1 + lh..end], data[end..];
        if data[0] == SEQUENCE then
          var items :- ParseAll(body);
          Some((Seq(items), rest))
        else if data[0] == OCTET_STRING then Some((Octet(body), rest))
        else if data[0] == INTEGER then Some((Int(Accumulated(body)), rest))
        else Some((Der.Other, rest))
  }

  /** Values until nothing is left over. */
  function ParseAll(data: seq<byte>): Option<seq<Der>>
    decreases |data|, 1
  {
    if data == [] then Some([])
    else
      var (item, rest) :- Parse(data);
      var items :- ParseAll(rest);
      Some([item] + items)
  }

  method ParseDer(data: seq<byte>) returns (r: Option<(Der, seq<byte>)>)
    ensures r == Parse(data)
    decreases |data|
  {
    if data == [] {
      return None;
    }
    var length := ReadLen(data[1..]);
    if length.None? {
      return None;
    }
    var (lh, len) := length.value;
    var end := 1 + lh + len;
    if |data| < end {
      return None;
    }
    var body, rest := data[1 + lh..end], data[end..];
    if data[0] == SEQUENCE {
      var items: seq<Der>, cur := [], body;
      assert ParseAll(body).Some? ==> [] + ParseAll(body).value == ParseAll(body).value;
      while cur != []
        invariant |cur| <= |body|
        invariant ParseAll(body) == PrependItems(items, ParseAll(cur))
        decreases |cur|
      {
        var item := ParseDer(cur);
        if item.None? {
          return None;
        }
        PrependTwice(items, item.value.0, ParseAll(item.value.1));
        items, cur := items + [item.value.0], item.value.1;
      }
      assert items + [] == items;
      return Some((Seq(items), rest));
    } else if data[0] == OCTET_STRING {
      return Some((Octet(body), rest));
    } else if data[0] == INTEGER {
      var n := ReadInt(body);
      return Some((Int(n), rest));
    } else {
      return Some((Der.Other, rest));
    }
  }

  ghost function PrependItems(done: seq<Der>, p: Option<seq<Der>>): Option<seq<Der>> {
    if p.Some? then Some(done + p.value) else None
  }

  lemma PrependTwice(done: seq<Der>, item: Der, p: Option<seq<Der>>)
    ensures PrependItems(done, PrependItems([item], p)) == PrependItems(done + [item], p)
  {
    if p.Some? {
      assert done + ([item] + p.value) == (done + [item]) + p.value;
    }
  }

  // ---- Encodings ----

  /** The short form, or the long form with that many length octets, minimal or not. */
  datatype Form = Short | Long(octets: nat)

  datatype Ber = Constructed(form: Form, items: seq<Ber>) | Primitive(tag: byte, form: Form, body: seq<byte>)

  function BytesOf(n: nat, count: nat): (b: seq<byte>)
    ensures |b| == count
  {
    if count == 0 then [] else BytesOf(n / 256, count - 1) + [n % 256]
  }

  function PrintLength(form: Form, n: nat): seq<byte> {
    match form
    case Short => [n % 128]
    case Long(octets) => [0x80 + octets % 128] + BytesOf(n, octets)
  }

  function Print(b: Ber): seq<byte>
    decreases b
  {
    match b
    case Constructed(form, items) => [SEQUENCE] + PrintLength(form, |PrintAll(items)|) + PrintAll(items)
    case Primitive(tag, form, body) => [tag] + PrintLength(form, |body|) + body
  }

  function PrintAll(items: seq<Ber>): seq<byte>
    decreases items
  {
    if items == [] then [] else Print(items[0]) + PrintAll(items[1..])
  }

  /** The length can be written in this form. */
  predicate FormFits(form: Form, n: nat) {
    match form
    case Short => n < 128
    case Long(octets) => 1 <= octets <= 4 && BigEndian(BytesOf(n, octets)) == n
  }

  predicate WellFormed(b: Ber)
    decreases b
  {
    match b
    case Constructed(form, items) => AllWellFormed(items) && FormFits(form, |PrintAll(items)|)
    case Primitive(tag, form, body) => tag != SEQUENCE && FormFits(form, |body|)
  }

  predicate AllWellFormed(items: seq<Ber>)
    decreases items
  {
    items == [] || (WellFormed(items[0]) && AllWellFormed(items[1..]))
  }

  /** The tree an encoding stands for: the form of its lengths and the bodies of other values do not matter. */
  function Meaning(b: Ber): Der
    decreases b
  {
    match b
    case Constructed(_, items) => Seq(Meanings(items))
    case Primitive(tag, _, body) =>
      if tag == OCTET_STRING then Octet(body) else if tag == INTEGER then Int(Accumulated(body)) else Der.Other
  }

  function Meanings(items: seq<Ber>): seq<Der>
    decreases items
  {
    if items == [] then [] else [Meaning(items[0])] + Meanings(items[1..])
  }

  // ---- The reader accepts exactly the encodings, and returns what they stand for ----

  lemma LengthIsTaken(form: Form, n: nat, rest: seq<byte>)
    requires FormFits(form, n)
    ensures TakeLen(PrintLength(form, n) + rest) == Some((|PrintLength(form, n)|, n))
  {
    hide BigEndian, BytesOf;
    var data := PrintLength(form, n) + rest;
    if form.Long? {
      assert data[1..1 + form.octets] == BytesOf(n, form.octets);
    }
  }

  lemma {:induction false} OctetsOfBigEndian(b: seq<byte>)
    ensures BytesOf(BigEndian(b), |b|) == b
  {
    if b != [] {
      OctetsOfBigEndian(b[..|b| - 1]);
      assert b == b[..|b| - 1] + [b[|b| - 1]];
    }
  }

  lemma LengthIsPrinted(data: seq<byte>) returns (form: Form)
    requires TakeLen(data).Some?
    ensures var (lh, len) := TakeLen(data).value;
      FormFits(form, len) && data[..lh] == PrintLength(form, len)
  {
    hide BigEndian, BytesOf;
    if data[0] < 0x80 {
      form := Short;
    } else {
      var n: int := data[0] - 0x80;
      form := Long(n);
      OctetsOfBigEndian(data[1..1 + n]);
      assert data[..1 + n] == [data[0]] + data[1..1 + n];
    }
  }

  /** A header in front of a body that has the stated length. */
  lemma ParsedParts(tag: byte, form: Form, body: seq<byte>, rest: seq<byte>)
    requires FormFits(form, |body|)
    ensures var data := [tag] + PrintLength(form, |body|) + body + rest;
      var (lh, len) := (|PrintLength(form, |body|)|, |body|);
      && TakeLen(data[1..]) == Some((lh, len)) && |data| >= 1 + lh + len
      && data[1 + lh..1 + lh + len] == body && data[1 + lh + len..] == rest
  {
    hide PrintLength, TakeLen;
    var length := PrintLength(form, |body|);
    var data := [tag] + length + body + rest;
    LengthIsTaken(form, |body|, body + rest);
    assert data[1..] == length + (body + rest);
  }

  lemma {:induction false} EncodingIsRead(b: Ber, rest: seq<byte>)
    requires WellFormed(b)
    ensures Parse(Print(b) + rest) == Some((Meaning(b), rest))
    decreases b
  {
    hide TakeLen, PrintLength, FormFits, PrintAll;
    match b
    case Constructed(form, items) =>
      ParsedParts(SEQUENCE, form, PrintAll(items), rest);
      EncodingsAreRead(items);
    case Primitive(tag, form, body) => ParsedParts(tag, form, body, rest);
  }

  lemma {:induction false} EncodingsAreRead(items: seq<Ber>)
    requires AllWellFormed(items)
    ensures ParseAll(PrintAll(items)) == Some(Meanings(items))
    decreases items
  {
    hide Parse, Print, Meaning, WellFormed;
    if items != [] {
      EncodingIsRead(items[0], PrintAll(items[1..]));
      EncodingsAreRead(items[1..]);
      PrintIsNonEmpty(items[0]);
    }
  }

  lemma PrintIsNonEmpty(b: Ber)
    ensures Print(b) != []
  {
  }

  /**
   * Whatever is accepted is an encoding followed by the rest: header and body are consumed exactly, children fill their
   * parent.
   */
  lemma {:induction false} AcceptedIsAnEncoding(data: seq<byte>) returns (b: Ber)
    requires Parse(data).Some?
    ensures WellFormed(b) && data == Print(b) + Parse(data).value.1 && Meaning(b) == Parse(data).value.0
    decreases |data|, 0
  {
    hide TakeLen, PrintLength, FormFits;
    var form := LengthIsPrinted(data[1..]);
    var (lh, len) := TakeLen(data[1..]).value;
    var body, rest := data[1 + lh..1 + lh + len], data[1 + lh + len..];
    assert data == [data[0]] + data[1..][..lh] + body + rest;
    if data[0] == SEQUENCE {
      var items := AcceptedAreEncodings(body);
      b := Constructed(form, items);
    } else {
      b := Primitive(data[0], form, body);
    }
  }

  lemma {:induction false} AcceptedAreEncodings(data: seq<byte>) returns (items: seq<Ber>)
    requires ParseAll(data).Some?
    ensures AllWellFormed(items) && data == PrintAll(items) && Meanings(items) == ParseAll(data).value
    decreases |data|, 1
  {
    hide Parse, Print, Meaning, WellFormed;
    if data == [] {
      items := [];
    } else {
      var first := AcceptedIsAnEncoding(data);
      var others := AcceptedAreEncodings(Parse(data).value.1);
      items := [first] + others;
      assert items[1..] == others;
    }
  }

  lemma AcceptsExactlyTheEncodings(data: seq<byte>, d: Der, rest: seq<byte>)
    ensures Parse(data) == Some((d, rest)) <==> exists b :: WellFormed(b) && Print(b) + rest == data && Meaning(b) == d
  {
    hide Parse, WellFormed, Print, Meaning;
    if Parse(data) == Some((d, rest)) {
      var b := AcceptedIsAnEncoding(data);
    }
    if b :| WellFormed(b) && Print(b) + rest == data && Meaning(b) == d {
      EncodingIsRead(b, rest);
    }
  }

  // ---- der_octet_encoding ----

  method OctetEncoding(value: seq<byte>) returns (out: seq<byte>)
    ensures out == EncodedOctets(value)
  {
    out := [OCTET_STRING];
    if |value| < 128 {
      out := out + [|value| % 256];
    } else {
      out := out + [0x81];
      out := out + [|value| % 256];
    }
    out := out + value;
  }

  /** The length is cut to one octet. */
  function EncodedOctets(value: seq<byte>): seq<byte> {
    [OCTET_STRING] + (if |value| < 128 then [|value|] else [0x81, |value| % 256]) + value
  }

  lemma OneOctet(n: nat)
    requires n < 256
    ensures FormFits(Long(1), n) && PrintLength(Long(1), n) == [0x81, n]
  {
    assert BytesOf(n, 1) == BytesOf(n / 256, 0) + [n % 256] == [n];
    assert BigEndian([n]) == BigEndian([n][..0]) * 256 + n;
  }

  /**
   * It reads back as its value up to 255 octets; beyond that as the first |v| mod 256 of them, with the others left
   * over.
   */
  lemma OctetsReadBack(value: seq<byte>)
    ensures |value| <= 255 ==> Parse(EncodedOctets(value)) == Some((Octet(value), []))
    ensures |value| > 255 ==>
      Parse(EncodedOctets(value)) == Some((Octet(value[..|value| % 256]), value[|value| % 256..]))
    ensures Parse(EncodedOctets(value)) == Some((Octet(value), [])) <==> |value| <= 255
  {
    hide Parse, PrintLength, FormFits;
    var n := if |value| < 128 then |value| else |value| % 256;
    var form := if |value| < 128 then Short else Long(1);
    OneOctet(n);
    ShortFits(|value|);
    var b := Primitive(OCTET_STRING, form, value[..n]);
    EncodingIsRead(b, value[n..]);
    assert value == value[..n] + value[n..];
    assert Print(b) + value[n..] == EncodedOctets(value);
    if |value| > 255 {
      assert |value[..n]| != |value|;
    } else {
      assert value[..n] == value && value[n..] == [];
    }
  }

  lemma ShortFits(n: nat)
    ensures n < 128 ==> FormFits(Short, n) && PrintLength(Short, n) == [n]
  {
  }
}

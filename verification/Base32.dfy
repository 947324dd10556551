/** Crockford Base32 over a 32-bit accumulator that is never masked, against its plain meaning as a stream of bits. */
module Base32 {
  import opened Common
  import opened Bytes

  // ---- Bits ----

  /** n >>> k. */
  function Shr(n: nat, k: nat): nat {
    if k == 0 then n else Shr(n / 2, k - 1)
  }

  /** n << k, before it is cut to a word. */
  function Shl(n: nat, k: nat): nat
    decreases k
  {
    if k == 0 then n else Shl(2 * n, k - 1)
  }

  /** The low k bits of n, as a number. */
  function Low(n: nat, k: nat): nat {
    if k == 0 then 0 else 2 * Low(n / 2, k - 1) + n % 2
  }

  /** The low k bits of n, most significant first. */
  function LowBits(n: nat, k: nat): (bits: seq<nat>)
    ensures |bits| == k && forall i :: 0 <= i < k ==> bits[i] < 2
  {
    if k == 0 then [] else LowBits(n / 2, k - 1) + [n % 2]
  }

  function Zeros(k: nat): (bits: seq<nat>)
    ensures |bits| == k && forall i :: 0 <= i < k ==> bits[i] == 0
  {
    seq(k, _ => 0)
  }

  function Number(bits: seq<nat>): nat {
    if bits == [] then 0 else 2 * Number(bits[..|bits| - 1]) + bits[|bits| - 1]
  }

  lemma {:induction false} NumberOfLowBits(n: nat, k: nat)
    ensures Number(LowBits(n, k)) == Low(n, k)
  {
    if k > 0 {
      NumberOfLowBits(n / 2, k - 1);
      assert LowBits(n, k)[..k - 1] == LowBits(n / 2, k - 1);
    }
  }

  lemma {:induction false} LowBitsOfNumber(bits: seq<nat>)
    requires forall i :: 0 <= i < |bits| ==> bits[i] < 2
    ensures LowBits(Number(bits), |bits|) == bits
  {
    if bits != [] {
      LowBitsOfNumber(bits[..|bits| - 1]);
      assert bits == bits[..|bits| - 1] + [bits[|bits| - 1]];
    }
  }

  lemma {:induction false} SplitBits(n: nat, j: nat, k: nat)
    ensures LowBits(n, j + k) == LowBits(Shr(n, k), j) + LowBits(n, k)
  {
    if k > 0 {
      SplitBits(n / 2, j, k - 1);
    }
  }

  lemma {:induction false} ShiftedBits(n: nat, j: nat, k: nat)
    ensures LowBits(Shl(n, k), j + k) == LowBits(n, j) + Zeros(k)
    decreases k
  {
    if k == 0 {
      assert LowBits(n, j) + Zeros(0) == LowBits(n, j);
    } else {
      ShiftedBits(2 * n, j + 1, k - 1);
      assert LowBits(2 * n, j + 1) == LowBits(n, j) + [0];
      assert LowBits(n, j) + [0] + Zeros(k - 1) == LowBits(n, j) + Zeros(k);
    }
  }

  lemma {:induction false} NoLowBits(n: nat, k: nat)
    ensures Low(n, k) == 0 <==> LowBits(n, k) == Zeros(k)
  {
    if k > 0 {
      NoLowBits(n / 2, k - 1);
      assert LowBits(n, k)[..k - 1] == LowBits(n / 2, k - 1) && LowBits(n, k)[k - 1] == n % 2;
      assert Zeros(k)[..k - 1] == Zeros(k - 1);
    }
  }

  /** Halving k times forgets 2^k: what is added above bit 24 never reaches the low bits. */
  lemma {:induction false} HighBitsDoNotMatter(n: nat, high: nat, k: nat, width: nat)
    requires k <= width
    ensures LowBits(n + Shl(high, width), k) == LowBits(n, k)
  {
    if k > 0 {
      DoubledShift(high, width - 1);
      assert (n + Shl(high, width)) / 2 == n / 2 + Shl(high, width - 1) && (n + Shl(high, width)) % 2 == n % 2;
      HighBitsDoNotMatter(n / 2, high, k - 1, width - 1);
    }
  }

  lemma {:induction false} DoubledShift(n: nat, k: nat)
    ensures Shl(n, k + 1) == 2 * Shl(n, k)
    decreases k
  {
    if k > 0 {
      DoubledShift(2 * n, k - 1);
    }
  }

  /** A 32-bit word, as its unsigned value. */
  function Word(n: nat): nat {
    n % 0x1_0000_0000
  }

  lemma Shl16(n: nat)
    ensures Shl(n, 16) == n * 0x1_0000
  {
    hide Shl;
    Shl8(n);
    Shl8(n * 0x100);
    ShlTwice(n, 8, 8);
  }

  lemma Shl32(n: nat)
    ensures Shl(n, 32) == n * 0x1_0000_0000
  {
    hide Shl;
    Shl16(n);
    Shl16(n * 0x1_0000);
    ShlTwice(n, 16, 16);
  }

  lemma Shl8(n: nat)
    ensures Shl(n, 8) == n * 0x100
  {
    assert Shl(n, 8) == Shl(2 * n, 7) == Shl(4 * n, 6) == Shl(8 * n, 5);
    assert Shl(8 * n, 5) == Shl(16 * n, 4) == Shl(32 * n, 3) == Shl(64 * n, 2);
    assert Shl(64 * n, 2) == Shl(128 * n, 1) == Shl(256 * n, 0);
  }

  lemma {:induction false} ShlTwice(n: nat, j: nat, k: nat)
    ensures Shl(n, j + k) == Shl(Shl(n, j), k)
    decreases j
  {
    if j > 0 {
      ShlTwice(2 * n, j - 1, k);
    }
  }

  /** Cutting to 32 bits keeps the low ones. */
  lemma WordKeepsLowBits(n: nat, k: nat)
    requires k <= 32
    ensures LowBits(Word(n), k) == LowBits(n, k)
  {
    var high := n / 0x1_0000_0000;
    Shl32(high);
    HighBitsDoNotMatter(Word(n), high, k, 32);
  }

  // ---- Digits of five and of eight bits ----

  function Bits(width: nat, digits: seq<nat>): seq<nat> {
    if digits == [] then [] else Bits(width, digits[..|digits| - 1]) + LowBits(digits[|digits| - 1], width)
  }

  lemma BitsSnoc(width: nat, digits: seq<nat>, d: nat)
    ensures Bits(width, digits + [d]) == Bits(width, digits) + LowBits(d, width)
  {
    assert (digits + [d])[..|digits|] == digits;
  }

  lemma {:induction false} BitsLength(digits: seq<nat>)
    ensures |Bits(5, digits)| == 5 * |digits| && |Bits(8, digits)| == 8 * |digits|
  {
    if digits != [] {
      BitsLength(digits[..|digits| - 1]);
    }
  }

  /** A digit that its width can hold. */
  predicate Fits(width: nat, digits: seq<nat>) {
    forall i :: 0 <= i < |digits| ==> Low(digits[i], width) == digits[i]
  }

  lemma SmallDigitsFit(digits: seq<nat>)
    ensures (forall i :: 0 <= i < |digits| ==> digits[i] < 32) ==> Fits(5, digits)
    ensures (forall i :: 0 <= i < |digits| ==> digits[i] < 256) ==> Fits(8, digits)
  {
    forall i | 0 <= i < |digits|
      ensures digits[i] < 32 ==> Low(digits[i], 5) == digits[i]
      ensures digits[i] < 256 ==> Low(digits[i], 8) == digits[i]
    {
      SmallIsLow(digits[i]);
    }
  }

  lemma {:induction false} LowIsIdentity(n: nat, k: nat)
    requires n < Shl(1, k)
    ensures Low(n, k) == n
  {
    if k > 0 {
      DoubledShift(1, k - 1);
      LowIsIdentity(n / 2, k - 1);
    }
  }

  lemma SmallIsLow(n: nat)
    ensures n < 32 ==> Low(n, 5) == n
    ensures n < 256 ==> Low(n, 8) == n
  {
    hide Low;
    Shl5(1);
    Shl8(1);
    if n < 32 {
      LowIsIdentity(n, 5);
    }
    if n < 256 {
      LowIsIdentity(n, 8);
    }
  }

  /** A bit stream has one reading. */
  lemma {:induction false} BitsInjective(width: nat, a: seq<nat>, b: seq<nat>)
    requires width > 0 && Fits(width, a) && Fits(width, b) && Bits(width, a) == Bits(width, b)
    ensures a == b
    decreases |a|
  {
    hide LowBits, Low, Fits;
    if a != [] && b != [] {
      var x, y := a[|a| - 1], b[|b| - 1];
      SameSplit(Bits(width, a[..|a| - 1]), LowBits(x, width), Bits(width, b[..|b| - 1]), LowBits(y, width));
      NumberOfLowBits(x, width);
      NumberOfLowBits(y, width);
      FitsParts(width, a);
      FitsParts(width, b);
      BitsInjective(width, a[..|a| - 1], b[..|b| - 1]);
      assert a == a[..|a| - 1] + [x] && b == b[..|b| - 1] + [y];
    }
  }

  lemma FitsParts(width: nat, digits: seq<nat>)
    requires Fits(width, digits) && digits != []
    ensures Fits(width, digits[..|digits| - 1]) && Low(digits[|digits| - 1], width) == digits[|digits| - 1]
  {
  }

  lemma FitsSnoc(width: nat, digits: seq<nat>, d: nat)
    requires Fits(width, digits) && Low(d, width) == d
    ensures Fits(width, digits + [d])
  {
  }

  lemma SameSplit(a: seq<nat>, b: seq<nat>, c: seq<nat>, d: seq<nat>)
    requires a + b == c + d && |b| == |d|
    ensures a == c && b == d
  {
    assert |a| == |c|;
    assert a == (a + b)[..|a|] && c == (c + d)[..|a|] && b == (a + b)[|a|..] && d == (c + d)[|a|..];
  }

  lemma Assoc(a: seq<nat>, b: seq<nat>, c: seq<nat>)
    ensures (a + b) + c == a + (b + c)
  {
  }

  /** Cut into groups of five. */
  function Chunks(bits: seq<nat>): seq<nat>
    requires |bits| % 5 == 0
  {
    if bits == [] then [] else Chunks(bits[..|bits| - 5]) + [Number(bits[|bits| - 5..])]
  }

  lemma {:induction false} BitsOfChunks(bits: seq<nat>)
    requires |bits| % 5 == 0 && AreBits(bits)
    ensures Bits(5, Chunks(bits)) == bits && Fits(5, Chunks(bits)) && 5 * |Chunks(bits)| == |bits|
  {
    hide LowBits, Low, Number, Fits;
    if bits == [] {
      SmallDigitsFit([]);
    } else {
      var front, last := bits[..|bits| - 5], bits[|bits| - 5..];
      BitsOfChunks(front);
      LowBitsOfNumber(last);
      NumberOfLowBits(Number(last), 5);
      BitsSnoc(5, Chunks(front), Number(last));
      FitsSnoc(5, Chunks(front), Number(last));
      assert bits == front + last;
    }
  }

  predicate AreBits(bits: seq<nat>) {
    forall i :: 0 <= i < |bits| ==> bits[i] < 2
  }

  // ---- What the code means ----

  function Padding(n: nat): nat {
    (5 - 8 * n % 5) % 5
  }

  lemma PaddingFillsUp(n: nat)
    ensures (8 * n + Padding(n)) % 5 == 0
  {
  }

  /** The bits of the bytes, filled up with zeros, in groups of five. */
  function Encoded(bytes: seq<byte>): seq<nat> {
    BitsLength(bytes);
    PaddingFillsUp(|bytes|);
    Chunks(Bits(8, bytes) + Zeros(Padding(|bytes|)))
  }

  /** The symbols hold the bytes, and fewer than eight further bits, all zero. */
  predicate Decodes(symbols: seq<nat>, bytes: seq<byte>) {
    var spare := 5 * |symbols| - 8 * |bytes|;
    0 <= spare < 8 && Bits(5, symbols) == Bits(8, bytes) + Zeros(spare)
  }

  lemma {:induction false} BitsAreBits(width: nat, digits: seq<nat>)
    ensures AreBits(Bits(width, digits))
  {
    if digits != [] {
      BitsAreBits(width, digits[..|digits| - 1]);
    }
  }

  lemma EncodedBits(bytes: seq<byte>)
    ensures Bits(5, Encoded(bytes)) == Bits(8, bytes) + Zeros(Padding(|bytes|))
    ensures Fits(5, Encoded(bytes)) && 5 * |Encoded(bytes)| == 8 * |bytes| + Padding(|bytes|)
  {
    hide Chunks, Fits, Bits, Padding;
    BitsLength(bytes);
    BitsAreBits(8, bytes);
    PaddingFillsUp(|bytes|);
    BitsOfChunks(Bits(8, bytes) + Zeros(Padding(|bytes|)));
  }

  /** Decoding inverts encoding. */
  lemma EncodedDecodes(bytes: seq<byte>)
    ensures Decodes(Encoded(bytes), bytes)
  {
    EncodedBits(bytes);
  }

  /**
   * The spellings of some bytes: their encoding, and that with a superfluous zero where the padding leaves room for it.
   */
  lemma SpellingsOf(symbols: seq<nat>, bytes: seq<byte>)
    requires Fits(5, symbols)
    ensures Decodes(symbols, bytes) <==>
      symbols == Encoded(bytes) || (Padding(|bytes|) < 3 && symbols == Encoded(bytes) + [0])
  {
    hide Padding, Encoded;
    var e, pad := Encoded(bytes), Padding(|bytes|);
    EncodedBits(bytes);
    PaddingIsShort(|bytes|);
    BitsSnoc(5, e, 0);
    assert LowBits(0, 5) == Zeros(5) by { NoLowBits(0, 5); }
    assert Bits(8, bytes) + Zeros(pad) + Zeros(5) == Bits(8, bytes) + Zeros(pad + 5);
    if Decodes(symbols, bytes) {
      if |symbols| == |e| {
        BitsInjective(5, symbols, e);
      } else {
        assert |symbols| == |e| + 1;
        BitsInjective(5, symbols, e + [0]);
      }
    }
  }

  lemma PaddingIsShort(n: nat)
    ensures Padding(n) < 5 && (Padding(n) < 3 <==> n % 5 in {0, 1, 3})
  {
  }

  /** A byte count leaves every string of that many bytes one spelling exactly if it is 2 or 4 modulo 5. */
  lemma CanonicalLengths(n: nat)
    ensures n % 5 in {2, 4} <==> forall symbols: seq<nat>, bytes: seq<byte> ::
      (Fits(5, symbols) && |bytes| == n && Decodes(symbols, bytes) ==> symbols == Encoded(bytes))
  {
    hide Encoded, Decodes, Padding;
    PaddingIsShort(n);
    if n % 5 in {2, 4} {
      forall symbols: seq<nat>, bytes: seq<byte> | Fits(5, symbols) && |bytes| == n && Decodes(symbols, bytes)
        ensures symbols == Encoded(bytes)
      {
        SpellingsOf(symbols, bytes);
      }
    } else {
      var bytes: seq<byte> := seq(n, _ => 0);
      EncodedBits(bytes);
      SpellingsOf(Encoded(bytes) + [0], bytes);
      assert |Encoded(bytes) + [0]| != |Encoded(bytes)|;
    }
  }

  /** Decoding has at most one result of a given length. */
  lemma DecodesUniquely(symbols: seq<nat>, a: seq<byte>, b: seq<byte>)
    requires |a| == |b| && Decodes(symbols, a) && Decodes(symbols, b)
    ensures a == b
  {
    BitsLength(a);
    BitsLength(b);
    assert Bits(5, symbols)[..8 * |a|] == Bits(8, a) == Bits(8, b);
    SmallDigitsFit(a);
    SmallDigitsFit(b);
    BitsInjective(8, a, b);
  }

  // ---- The loops ----

  /** The stream so far: finished digits, then the bits that wait in the buffer. */
  predicate Pending(width: nat, out: seq<nat>, buffer: nat, bits: nat, stream: seq<nat>) {
    Bits(width, out) + LowBits(buffer, bits) == stream
  }

  lemma FeedByte(out: seq<nat>, buffer: nat, bits: nat, bytes: seq<nat>, b: nat)
    requires bits < 24 && b < 256 && Pending(5, out, buffer, bits, Bits(8, bytes))
    ensures Pending(5, out, Word(buffer * 256) + b, bits + 8, Bits(8, bytes + [b]))
  {
    hide LowBits, Word, Bits;
    ShiftInByte(buffer, bits, b);
    BitsSnoc(8, bytes, b);
    Assoc(Bits(5, out), LowBits(buffer, bits), LowBits(b, 8));
  }

  lemma EmitSymbol(out: seq<nat>, buffer: nat, bits: nat, stream: seq<nat>)
    requires Pending(5, out, buffer, bits + 5, stream)
    ensures Pending(5, out + [Shr(buffer, bits) % 32], buffer, bits, stream)
  {
    hide LowBits, Shr, Bits;
    var symbol := Shr(buffer, bits) % 32;
    TakeSymbol(buffer, bits);
    BitsSnoc(5, out, symbol);
    Assoc(Bits(5, out), LowBits(symbol, 5), LowBits(buffer, bits));
  }

  lemma EmitLast(out: seq<nat>, buffer: nat, bits: nat, stream: seq<nat>)
    requires 0 < bits < 5 && Pending(5, out, buffer, bits, stream)
    ensures Bits(5, out + [Word(Shl(buffer, 5 - bits)) % 32]) == stream + Zeros(5 - bits)
  {
    hide LowBits, Shl, Word, Bits;
    LastSymbol(buffer, bits);
    BitsSnoc(5, out, Word(Shl(buffer, 5 - bits)) % 32);
    Assoc(Bits(5, out), LowBits(buffer, bits), Zeros(5 - bits));
  }

  /** A symbol list with the right stream and as few symbols as possible is the encoding. */
  lemma IsEncoded(out: seq<nat>, bytes: seq<byte>, k: nat)
    requires k < 5 && Fits(5, out) && Bits(5, out) == Bits(8, bytes) + Zeros(k)
    ensures out == Encoded(bytes)
  {
    hide Encoded, Fits, Bits;
    BitsLength(out);
    BitsLength(bytes);
    EncodedBits(bytes);
    BitsInjective(5, out, Encoded(bytes));
  }

  method EncodeSymbols(bytes: seq<byte>) returns (out: seq<nat>)
    ensures out == Encoded(bytes)
  {
    hide Encoded, Word, Shr, Shl, Pending, Fits, Low;
    out := [];
    var buffer: nat, bits: nat := 0, 0;
    assert Pending(5, out, buffer, bits, Bits(8, bytes[..0])) && Fits(5, out) by {
      NothingPending();
    }
    for i := 0 to |bytes|
      invariant bits < 5 && Fits(5, out) && Pending(5, out, buffer, bits, Bits(8, bytes[..i]))
    {
      FeedByte(out, buffer, bits, bytes[..i], bytes[i]);
      assert bytes[..i + 1] == bytes[..i] + [bytes[i]];
      buffer := Word(buffer * 256) + bytes[i];
      bits := bits + 8;
      while bits >= 5
        invariant bits <= 12 && Fits(5, out) && Pending(5, out, buffer, bits, Bits(8, bytes[..i + 1]))
      {
        bits := bits - 5;
        EmitSymbol(out, buffer, bits, Bits(8, bytes[..i + 1]));
        var symbol := Shr(buffer, bits) % 32;
        SmallIsLow(symbol);
        FitsSnoc(5, out, symbol);
        out := out + [symbol];
      }
    }
    assert bytes[..|bytes|] == bytes;
    if bits > 0 {
      EmitLast(out, buffer, bits, Bits(8, bytes));
      var symbol := Word(Shl(buffer, 5 - bits)) % 32;
      SmallIsLow(symbol);
      FitsSnoc(5, out, symbol);
      out := out + [symbol];
      IsEncoded(out, bytes, 5 - bits);
    } else {
      NonePending(5, out, buffer, Bits(8, bytes));
      IsEncoded(out, bytes, 0);
    }
  }

  lemma NothingPending()
    ensures Pending(5, [], 0, 0, Bits(8, [])) && Pending(8, [], 0, 0, Bits(5, [])) && Fits(5, [])
  {
  }

  lemma NonePending(width: nat, out: seq<nat>, buffer: nat, stream: seq<nat>)
    requires Pending(width, out, buffer, 0, stream)
    ensures Bits(width, out) == stream + Zeros(0)
  {
  }

  lemma WordAfterByte(buffer: nat, b: nat)
    requires b < 256
    ensures Word(buffer * 256) + b == Word(buffer * 256 + b)
  {
  }

  lemma WordAfterSymbol(buffer: nat, v: nat)
    requires v < 32
    ensures Word(buffer * 32) + v == Word(buffer * 32 + v)
  {
  }

  /** (buffer << 8) | byte. */
  lemma ShiftInByte(buffer: nat, bits: nat, b: nat)
    requires bits < 24 && b < 256
    ensures LowBits(Word(buffer * 256) + b, bits + 8) == LowBits(buffer, bits) + LowBits(b, 8)
  {
    var n := buffer * 256 + b;
    WordAfterByte(buffer, b);
    WordKeepsLowBits(n, bits + 8);
    SplitBits(n, bits, 8);
    Shl8(buffer);
    Shl8(1);
    ShrUndoesShl(buffer, b, 8);
    HighBitsDoNotMatter(b, buffer, 8, 8);
  }

  lemma {:induction false} ShrUndoesShl(n: nat, r: nat, k: nat)
    requires r < Shl(1, k)
    ensures Shr(Shl(n, k) + r, k) == n
  {
    if k > 0 {
      DoubledShift(n, k - 1);
      DoubledShift(1, k - 1);
      assert (Shl(n, k) + r) / 2 == Shl(n, k - 1) + r / 2;
      ShrUndoesShl(n, r / 2, k - 1);
    }
  }

  lemma Shl5(n: nat)
    ensures Shl(n, 5) == n * 32
  {
    assert Shl(n, 5) == Shl(4 * n, 3) == Shl(16 * n, 1) == 32 * n;
  }

  lemma LowFive(n: nat)
    ensures LowBits(n % 32, 5) == LowBits(n, 5)
  {
    Shl5(n / 32);
    HighBitsDoNotMatter(n % 32, n / 32, 5, 5);
  }

  /** (buffer >>> bits) & 0x1f. */
  lemma TakeSymbol(buffer: nat, bits: nat)
    ensures LowBits(buffer, bits + 5) == LowBits(Shr(buffer, bits) % 32, 5) + LowBits(buffer, bits)
  {
    SplitBits(buffer, 5, bits);
    LowFive(Shr(buffer, bits));
  }

  /** (buffer << (5 - bits)) & 0x1f. */
  lemma LastSymbol(buffer: nat, bits: nat)
    requires 0 < bits < 5
    ensures LowBits(Word(Shl(buffer, 5 - bits)) % 32, 5) == LowBits(buffer, bits) + Zeros(5 - bits)
  {
    LowFive(Word(Shl(buffer, 5 - bits)));
    WordKeepsLowBits(Shl(buffer, 5 - bits), 5);
    ShiftedBits(buffer, bits, 5 - bits);
  }

  /** (buffer << 5) | value. */
  lemma ShiftInSymbol(buffer: nat, bits: nat, v: nat)
    requires bits < 24 && v < 32
    ensures LowBits(Word(buffer * 32) + v, bits + 5) == LowBits(buffer, bits) + LowBits(v, 5)
  {
    var n := buffer * 32 + v;
    WordAfterSymbol(buffer, v);
    WordKeepsLowBits(n, bits + 5);
    SplitBits(n, bits, 5);
    Shl5(buffer);
    Shl5(1);
    ShrUndoesShl(buffer, v, 5);
    HighBitsDoNotMatter(v, buffer, 5, 5);
  }

  /** (buffer >>> bits) & 0xff. */
  lemma TakeByte(buffer: nat, bits: nat)
    ensures LowBits(buffer, bits + 8) == LowBits(Shr(buffer, bits) % 256, 8) + LowBits(buffer, bits)
  {
    SplitBits(buffer, 8, bits);
    var n := Shr(buffer, bits);
    Shl8(n / 256);
    HighBitsDoNotMatter(n % 256, n / 256, 8, 8);
  }

  lemma FeedSymbol(out: seq<nat>, buffer: nat, bits: nat, symbols: seq<nat>, v: nat)
    requires bits < 24 && v < 32 && Pending(8, out, buffer, bits, Bits(5, symbols))
    ensures Pending(8, out, Word(buffer * 32) + v, bits + 5, Bits(5, symbols + [v]))
  {
    hide LowBits, Word, Bits;
    ShiftInSymbol(buffer, bits, v);
    BitsSnoc(5, symbols, v);
    Assoc(Bits(8, out), LowBits(buffer, bits), LowBits(v, 5));
  }

  lemma EmitByte(out: seq<nat>, buffer: nat, bits: nat, stream: seq<nat>)
    requires Pending(8, out, buffer, bits + 8, stream)
    ensures Pending(8, out + [Shr(buffer, bits) % 256], buffer, bits, stream)
  {
    hide LowBits, Shr, Bits;
    var b := Shr(buffer, bits) % 256;
    TakeByte(buffer, bits);
    BitsSnoc(8, out, b);
    Assoc(Bits(8, out), LowBits(b, 8), LowBits(buffer, bits));
  }

  /** The padding bits decide: all zero and the bytes are the result, otherwise there is none. */
  lemma LeftoverDecides(symbols: seq<nat>, out: seq<byte>, buffer: nat, bits: nat, bytes: seq<byte>)
    requires bits < 8 && 8 * |out| + bits == 5 * |symbols| && Pending(8, out, buffer, bits, Bits(5, symbols))
    requires |bytes| == |out|
    ensures bits == 0 ==> Low(buffer, bits) == 0
    ensures Low(buffer, bits) == 0 ==> Decodes(symbols, out)
    ensures Low(buffer, bits) != 0 ==> !Decodes(symbols, bytes)
  {
    hide LowBits, Bits;
    NoLowBits(buffer, bits);
    BitsLength(bytes);
    BitsLength(out);
    if Decodes(symbols, bytes) {
      SameSplit(Bits(8, out), LowBits(buffer, bits), Bits(8, bytes), Zeros(bits));
    }
  }

  /** The loop of base32Decode on the values of the characters: the bytes, or None for any of its errors. */
  method DecodeSymbols(symbols: seq<nat>, expected: nat) returns (r: Option<seq<byte>>)
    requires forall i :: 0 <= i < |symbols| ==> symbols[i] < 32
    ensures r.Some? ==> |r.value| == expected && Decodes(symbols, r.value)
    ensures r.None? ==> forall bytes: seq<byte> :: |bytes| == expected ==> !Decodes(symbols, bytes)
  {
    hide Word, Low, Pending, Bits, Shr;
    var out := new byte[expected];
    var index: nat, buffer: nat, bits: nat := 0, 0, 0;
    assert out[..0] == [] && symbols[..0] == [];
    NothingPending();
    for i := 0 to |symbols|
      invariant index <= expected && bits < 8 && 8 * index + bits == 5 * i
      invariant Pending(8, out[..index], buffer, bits, Bits(5, symbols[..i]))
    {
      FeedSymbol(out[..index], buffer, bits, symbols[..i], symbols[i]);
      assert symbols[..i + 1] == symbols[..i] + [symbols[i]];
      buffer := Word(buffer * 32) + symbols[i];
      bits := bits + 5;
      if bits >= 8 {
        bits := bits - 8;
        if index >= expected {
          return None;
        }
        EmitByte(out[..index], buffer, bits, Bits(5, symbols[..i + 1]));
        ghost var before := out[..index];
        out[index] := Shr(buffer, bits) % 256;
        index := index + 1;
        assert out[..index] == before + [Shr(buffer, bits) % 256];
      }
    }
    assert symbols[..|symbols|] == symbols;
    if index != expected {
      return None;
    }
    assert out[..index] == out[..];
    forall bytes: seq<byte> | |bytes| == expected ensures Low(buffer, bits) != 0 ==> !Decodes(symbols, bytes) {
      LeftoverDecides(symbols, out[..], buffer, bits, bytes);
    }
    LeftoverDecides(symbols, out[..], buffer, bits, out[..]);
    r := if bits > 0 && Low(buffer, bits) != 0 then None else Some(out[..]);
  }
}

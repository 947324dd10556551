/** The printed recovery key: how it is written, how a copied text is read, and what its envelope opens with. */
module RecoveryKit {
  import opened Common
  import opened Bytes
  import opened Framing
  import opened ManifestModel
  import opened SnapshotCheck
  import opened Envelope
  import opened DeviceKeys
  import opened Base32

  const CHECKSUM_BYTES := 2
  const KIT_BYTES := 34
  const GROUP_SIZE := 5

  // ---- Letters ----

  /** 0-9, then A-Z without I, L, O and U. */
  function Letter(v: nat): char
    requires v < 32
  {
    if v < 10 then '0' + v as char
    else if v < 18 then 'A' + (v - 10) as char
    else if v < 20 then 'J' + (v - 18) as char
    else if v < 22 then 'M' + (v - 20) as char
    else if v < 27 then 'P' + (v - 22) as char
    else 'V' + (v - 27) as char
  }

  function SymbolOf(c: char): (r: Option<nat>)
    ensures r.Some? ==> r.value < 32
  {
    if '0' <= c <= '9' then Some((c - '0') as nat)
    else if c == 'O' then Some(0)
    else if c == 'I' || c == 'L' then Some(1)
    else if 'A' <= c <= 'H' then Some((c - 'A') as nat + 10)
    else if 'J' <= c <= 'K' then Some((c - 'J') as nat + 18)
    else if 'M' <= c <= 'N' then Some((c - 'M') as nat + 20)
    else if 'P' <= c <= 'T' then Some((c - 'P') as nat + 22)
    else if 'V' <= c <= 'Z' then Some((c - 'V') as nat + 27)
    else None
  }

  lemma LetterIsRead(v: nat)
    requires v < 32
    ensures SymbolOf(Letter(v)) == Some(v) && !IsSeparator(Letter(v)) && AsciiUpper(Letter(v)) == Letter(v)
      && Letter(v) < 128 as char
  {
  }

  function Spelled(symbols: seq<nat>): (text: string)
    requires forall i :: 0 <= i < |symbols| ==> symbols[i] < 32
    ensures |text| == |symbols|
  {
    seq(|symbols|, i requires 0 <= i < |symbols| => Letter(symbols[i]))
  }

  /** The white space of \s, and the three punctuation marks. */
  predicate IsSeparator(c: char) {
    || 9 as char <= c <= 13 as char || c == ' ' || c == '\U{00A0}' || c == '\U{1680}' || '\U{2000}' <= c <= '\U{200A}'
    || c == '\U{2028}' || c == '\U{2029}' || c == '\U{202F}' || c == '\U{205F}' || c == '\U{3000}' || c == '\U{FEFF}'
    || c == '-' || c == '_' || c == '.'
  }

  function AsciiUpper(c: char): char {
    if 'a' <= c <= 'z' then 'A' + (c - 'a') else c
  }

  /** toUpperCase, one character at a time; `other` is what Unicode says outside ASCII. */
  function Upper(other: char -> string, c: char): string {
    if c < 128 as char then [AsciiUpper(c)] else other(c)
  }

  function WithoutSeparators(text: string): string {
    if text == "" then ""
    else (if IsSeparator(text[0]) then "" else [text[0]]) + WithoutSeparators(text[1..])
  }

  function Cleaned(other: char -> string, text: string): string {
    if text == "" then "" else WithoutSeparators(Upper(other, text[0])) + Cleaned(other, text[1..])
  }

  function Symbols(text: string): (r: Option<seq<nat>>)
    ensures r.Some? ==> |r.value| == |text| && forall i :: 0 <= i < |r.value| ==> r.value[i] < 32
  {
    if text == "" then Some([])
    else
      var before :- Symbols(text[..|text| - 1]);
      var v :- SymbolOf(text[|text| - 1]);
      Some(before + [v])
  }

  // ---- Writing the kit ----

  const CHECKSUM_LABEL := Ascii("4allpass-recovery-checksum-v1")

  function Checksum(hash: seq<byte> -> Digest, key: seq<byte>): (r: seq<byte>)
    requires IsKey(key)
    ensures |r| == CHECKSUM_BYTES
  {
    hash(Framed(Long, [CHECKSUM_LABEL, key]))[..CHECKSUM_BYTES]
  }

  predicate IsRecoveryKey(key: seq<byte>) {
    IsKey(key) && !AllZero(key)
  }

  function Groups(text: string): seq<string> {
    if text == "" then []
    else if |text| <= GROUP_SIZE then [text]
    else [text[..GROUP_SIZE]] + Groups(text[GROUP_SIZE..])
  }

  function Join(groups: seq<string>): string {
    if groups == [] then "" else if |groups| == 1 then groups[0] else groups[0] + "-" + Join(groups[1..])
  }

  lemma EncodedIsSmall(bytes: seq<byte>)
    ensures forall i :: 0 <= i < |Encoded(bytes)| ==> Encoded(bytes)[i] < 32
  {
    hide Encoded;
    EncodedBits(bytes);
    forall i | 0 <= i < |Encoded(bytes)| ensures Encoded(bytes)[i] < 32 {
      LowIsSmall(Encoded(bytes)[i]);
    }
  }

  lemma LowIsSmall(n: nat)
    ensures Low(n, 5) < 32
  {
    assert Low(n, 5) == 2 * Low(n / 2, 4) + n % 2 && Low(n / 2, 4) == 2 * Low(n / 2 / 2, 3) + n / 2 % 2;
    assert Low(n / 2 / 2, 3) <= 7 by {
      var m := n / 2 / 2;
      assert Low(m, 3) == 2 * Low(m / 2, 2) + m % 2 && Low(m / 2, 2) == 2 * Low(m / 2 / 2, 1) + m / 2 % 2;
    }
  }

  function Kit(hash: seq<byte> -> Digest, key: seq<byte>): string
    requires IsKey(key)
  {
    EncodedIsSmall(key + Checksum(hash, key));
    Join(Groups(Spelled(Encoded(key + Checksum(hash, key)))))
  }

  method FormatRecoveryKey(hash: seq<byte> -> Digest, key: seq<byte>) returns (r: Result<string>)
    ensures r == if IsRecoveryKey(key) then Ok(Kit(hash, key)) else Err(Protocol)
  {
    hide Encoded, Checksum;
    if !IsRecoveryKey(key) {
      return Err(Protocol);
    }
    EncodedIsSmall(key + Checksum(hash, key));
    var symbols := EncodeSymbols(key + Checksum(hash, key));
    var encoded := Spelled(symbols);
    var groups: seq<string>, i := [], 0;
    assert encoded[0..] == encoded && [] + Groups(encoded) == Groups(encoded);
    while i < |encoded|
      invariant 0 <= i && groups + Groups(From(encoded, i)) == Groups(encoded)
    {
      var group := if i + GROUP_SIZE <= |encoded| then encoded[i..i + GROUP_SIZE] else encoded[i..];
      GroupStep(encoded, i, groups, group);
      groups, i := groups + [group], i + GROUP_SIZE;
    }
    assert groups + [] == groups;
    r := Ok(Join(groups));
  }

  function From(text: string, i: nat): string {
    if i < |text| then text[i..] else ""
  }

  lemma FirstGroup(text: string)
    requires text != ""
    ensures Groups(text) == [if GROUP_SIZE <= |text| then text[..GROUP_SIZE] else text] + Groups(From(text, GROUP_SIZE))
  {
    if |text| == GROUP_SIZE {
      assert text[..GROUP_SIZE] == text;
    }
  }

  lemma GroupStep(text: string, i: nat, groups: seq<string>, group: string)
    requires i < |text| && group == if i + GROUP_SIZE <= |text| then text[i..i + GROUP_SIZE] else text[i..]
    ensures groups + Groups(From(text, i)) == (groups + [group]) + Groups(From(text, i + GROUP_SIZE))
  {
    hide Groups;
    var more := From(text, i);
    FirstGroup(more);
    assert From(more, GROUP_SIZE) == From(text, i + GROUP_SIZE);
    assert group == if GROUP_SIZE <= |more| then more[..GROUP_SIZE] else more;
  }

  // ---- Reading a copy of it ----

  /** What a typed text says, if it says these bytes. */
  predicate Spells(other: char -> string, text: string, bytes: seq<byte>) {
    Symbols(Cleaned(other, text)) == Some(Encoded(bytes))
  }

  function Verdict(hash: seq<byte> -> Digest, bytes: seq<byte>): Result<seq<byte>>
    requires |bytes| == KIT_BYTES
  {
    var key := bytes[..KEY_BYTES];
    if Checksum(hash, key) != bytes[KEY_BYTES..] then Err(Integrity)
    else if AllZero(key) then Err(Protocol)
    else Ok(key)
  }

  /** What parseRecoveryKey makes of a text. */
  ghost function ReadText(other: char -> string, hash: seq<byte> -> Digest, text: string): Result<seq<byte>> {
    if exists bytes: seq<byte> :: |bytes| == KIT_BYTES && Spells(other, text, bytes) then
      var bytes: seq<byte> :| |bytes| == KIT_BYTES && Spells(other, text, bytes);
      Verdict(hash, bytes)
    else Err(Protocol)
  }

  method ReadSymbols(text: string) returns (r: Option<seq<nat>>)
    ensures r == Symbols(text)
  {
    var symbols: seq<nat> := [];
    for i := 0 to |text|
      invariant Symbols(text[..i]) == Some(symbols)
    {
      assert text[..i + 1][..i] == text[..i];
      var v := SymbolOf(text[i]);
      if v.None? {
        OneBadLetter(text, i + 1);
        return None;
      }
      symbols := symbols + [v.value];
    }
    assert text[..|text|] == text;
    r := Some(symbols);
  }

  lemma {:induction false} OneBadLetter(text: string, n: nat)
    requires n <= |text| && Symbols(text[..n]).None?
    ensures Symbols(text).None?
  {
    if n < |text| {
      assert text[..|text| - 1][..n] == text[..n];
      OneBadLetter(text[..|text| - 1], n);
    } else {
      assert text[..n] == text;
    }
  }

  method ParseRecoveryKey(other: char -> string, hash: seq<byte> -> Digest, text: string) returns (r: Result<seq<byte>>)
    ensures forall bytes: seq<byte> :: |bytes| == KIT_BYTES && Spells(other, text, bytes) ==> r == Verdict(hash, bytes)
    ensures (forall bytes: seq<byte> :: |bytes| == KIT_BYTES ==> !Spells(other, text, bytes)) ==> r == Err(Protocol)
    ensures r == ReadText(other, hash, text)
  {
    hide Encoded, Decodes, Checksum, Cleaned;
    var normalized := Cleaned(other, text);
    if normalized == "" {
      NothingSpelled(other, text);
      return Err(Protocol);
    }
    var symbols := ReadSymbols(normalized);
    if symbols.None? {
      return Err(Protocol);
    }
    SmallDigitsFit(symbols.value);
    forall bytes: seq<byte> | |bytes| == KIT_BYTES
      ensures Decodes(symbols.value, bytes) <==> symbols.value == Encoded(bytes)
    {
      SpellingsOf(symbols.value, bytes);
      PaddingIsShort(KIT_BYTES);
    }
    var decoded := DecodeSymbols(symbols.value, KIT_BYTES);
    if decoded.None? {
      return Err(Protocol);
    }
    var bytes := decoded.value;
    forall again: seq<byte> | |again| == KIT_BYTES && Decodes(symbols.value, again) ensures again == bytes {
      DecodesUniquely(symbols.value, again, bytes);
    }
    assert Spells(other, text, bytes);
    var key := bytes[..KEY_BYTES];
    if Checksum(hash, key) != bytes[KEY_BYTES..] {
      return Err(Integrity);
    }
    r := if AllZero(key) then Err(Protocol) else Ok(key);
  }

  lemma NothingSpelled(other: char -> string, text: string)
    requires Cleaned(other, text) == ""
    ensures forall bytes: seq<byte> :: |bytes| == KIT_BYTES ==> !Spells(other, text, bytes)
  {
    hide Encoded;
    forall bytes: seq<byte> | |bytes| == KIT_BYTES ensures !Spells(other, text, bytes) {
      EncodedBits(bytes);
    }
  }

  // ---- The round trip, and the slips it forgives ----

  lemma Reassociate(a: string, b: string, c: string)
    ensures a + (b + c) == (a + b) + c
  {
  }

  lemma {:induction false} CleanedConcat(other: char -> string, a: string, b: string)
    ensures Cleaned(other, a + b) == Cleaned(other, a) + Cleaned(other, b)
  {
    hide Upper, WithoutSeparators;
    if a == "" {
      assert a + b == b && "" + Cleaned(other, b) == Cleaned(other, b);
    } else {
      CleanedConcat(other, a[1..], b);
      assert (a + b)[1..] == a[1..] + b;
      var first := WithoutSeparators(Upper(other, a[0]));
      Reassociate(first, Cleaned(other, a[1..]), Cleaned(other, b));
    }
  }

  lemma {:induction false} SymbolsOfSpelled(symbols: seq<nat>)
    requires forall i :: 0 <= i < |symbols| ==> symbols[i] < 32
    ensures Symbols(Spelled(symbols)) == Some(symbols)
  {
    hide Letter, SymbolOf;
    if symbols != [] {
      var front, last := symbols[..|symbols| - 1], symbols[|symbols| - 1];
      SymbolsOfSpelled(front);
      LetterIsRead(last);
      assert Spelled(symbols)[..|symbols| - 1] == Spelled(front);
      assert symbols == front + [last];
    }
  }

  predicate IsPlain(text: string) {
    forall i :: 0 <= i < |text| ==> text[i] < 128 as char && !IsSeparator(text[i]) && AsciiUpper(text[i]) == text[i]
  }

  lemma {:induction false} PlainIsClean(other: char -> string, text: string)
    requires IsPlain(text)
    ensures Cleaned(other, text) == text
  {
    hide IsSeparator, AsciiUpper;
    if text != "" {
      PlainIsClean(other, text[1..]);
      assert WithoutSeparators([text[0]]) == [text[0]] + WithoutSeparators([text[0]][1..]);
      assert text == [text[0]] + text[1..];
    }
  }

  lemma {:induction false} GroupedIsClean(other: char -> string, text: string)
    requires IsPlain(text)
    ensures Cleaned(other, Join(Groups(text))) == text
  {
    hide Cleaned, IsPlain;
    PlainIsClean(other, text);
    if |text| > GROUP_SIZE {
      var first, others := text[..GROUP_SIZE], text[GROUP_SIZE..];
      PlainParts(text, GROUP_SIZE);
      GroupedIsClean(other, others);
      CleanedConcat(other, first + "-", Join(Groups(others)));
      CleanedConcat(other, first, "-");
      PlainIsClean(other, first);
      SeparatorsVanish(other, '-');
      assert text == first + others && Groups(text)[1..] == Groups(others);
    }
  }

  lemma PlainParts(text: string, n: nat)
    requires IsPlain(text) && n <= |text|
    ensures IsPlain(text[..n]) && IsPlain(text[n..])
  {
    hide IsSeparator, AsciiUpper;
  }

  /** White space has no case. */
  ghost predicate KeepsSpace(other: char -> string) {
    forall c :: IsSeparator(c) && c >= 128 as char ==> other(c) == [c]
  }

  lemma SeparatorsVanish(other: char -> string, c: char)
    requires IsSeparator(c) && (c < 128 as char || other(c) == [c])
    ensures Cleaned(other, [c]) == ""
  {
    assert Cleaned(other, [c]) == WithoutSeparators([c]) + Cleaned(other, [c][1..]);
    assert WithoutSeparators([c]) == "" + WithoutSeparators([c][1..]);
  }

  predicate DashEverySixth(kit: string) {
    forall i :: 0 <= i < |kit| ==> (kit[i] == '-' <==> i % 6 == 5)
  }

  lemma OneGroupMore(first: string, more: string)
    requires |first| == GROUP_SIZE && (forall i :: 0 <= i < |first| ==> first[i] != '-') && DashEverySixth(more)
    ensures DashEverySixth(first + "-" + more)
  {
    var kit := first + "-" + more;
    forall i | 0 <= i < |kit| ensures kit[i] == '-' <==> i % 6 == 5 {
      if i >= 6 {
        assert kit[i] == more[i - 6] && i % 6 == (i - 6) % 6;
      }
    }
  }

  /**
   * Five characters, a dash, five characters: dashes stand at every sixth place and nowhere else, and none at the end.
   */
  lemma {:induction false} GroupLayout(text: string)
    requires text != "" && forall i :: 0 <= i < |text| ==> text[i] != '-'
    ensures DashEverySixth(Join(Groups(text)))
    ensures Join(Groups(text)) != "" && Join(Groups(text))[|Join(Groups(text))| - 1] == text[|text| - 1]
  {
    hide DashEverySixth, Groups, Join;
    JoinedGroups(text);
    if |text| > GROUP_SIZE {
      var first, others := text[..GROUP_SIZE], text[GROUP_SIZE..];
      GroupLayout(others);
      OneGroupMore(first, Join(Groups(others)));
    } else {
      NoDashYet(text);
    }
  }

  lemma JoinedGroups(text: string)
    requires text != ""
    ensures Join(Groups(text))
      == if |text| <= GROUP_SIZE then text else text[..GROUP_SIZE] + "-" + Join(Groups(text[GROUP_SIZE..]))
  {
    if |text| > GROUP_SIZE {
      assert Groups(text)[1..] == Groups(text[GROUP_SIZE..]) && Groups(text[GROUP_SIZE..]) != [];
    }
  }

  lemma NoDashYet(text: string)
    requires |text| <= GROUP_SIZE && forall i :: 0 <= i < |text| ==> text[i] != '-'
    ensures DashEverySixth(text)
  {
  }

  /** parseRecoveryKey(formatRecoveryKey(k)) is k. */
  lemma KitReadsBack(other: char -> string, hash: seq<byte> -> Digest, key: seq<byte>)
    requires IsRecoveryKey(key)
    ensures var bytes := key + Checksum(hash, key);
      |bytes| == KIT_BYTES && Spells(other, Kit(hash, key), bytes) && Verdict(hash, bytes) == Ok(key)
  {
    hide Encoded, Checksum, Letter, SymbolOf, IsSeparator, AsciiUpper;
    var bytes := key + Checksum(hash, key);
    EncodedIsSmall(bytes);
    var text := Spelled(Encoded(bytes));
    forall i | 0 <= i < |text|
      ensures text[i] < 128 as char && !IsSeparator(text[i]) && AsciiUpper(text[i]) == text[i]
    {
      LetterIsRead(Encoded(bytes)[i]);
    }
    GroupedIsClean(other, text);
    SymbolsOfSpelled(Encoded(bytes));
    assert bytes[..KEY_BYTES] == key && bytes[KEY_BYTES..] == Checksum(hash, key);
  }

  /** One slip of the pen: a separator more, or a character that is read alike (other case, O for 0, I or L for 1). */
  datatype Slip = Separator(at: nat, c: char) | Lookalike(at: nat, c: char)

  /** Each of the two leaves one character, and the two stand for the same symbol. */
  predicate ReadAlike(other: char -> string, c: char, d: char) {
    var a, b := Cleaned(other, [c]), Cleaned(other, [d]);
    |a| == |b| == 1 && SymbolOf(a[0]) == SymbolOf(b[0])
  }

  predicate IsSlip(other: char -> string, text: string, s: Slip) {
    match s
    case Separator(at, c) => at <= |text| && IsSeparator(c)
    case Lookalike(at, c) => at < |text| && ReadAlike(other, text[at], c)
  }

  function Slipped(other: char -> string, text: string, s: Slip): string
    requires IsSlip(other, text, s)
  {
    match s
    case Separator(at, c) => text[..at] + [c] + text[at..]
    case Lookalike(at, c) => text[..at] + [c] + text[at + 1..]
  }

  /** Among ASCII characters that means: no separators, and the same symbol in upper case. */
  lemma AsciiLookalikes(other: char -> string, c: char, d: char)
    requires c < 128 as char && d < 128 as char
    ensures ReadAlike(other, c, d)
      <==> !IsSeparator(c) && !IsSeparator(d) && SymbolOf(AsciiUpper(c)) == SymbolOf(AsciiUpper(d))
  {
    hide SymbolOf, Cleaned, IsSeparator;
    AsciiCleaned(other, c);
    AsciiCleaned(other, d);
  }

  lemma SymbolsSnoc(a: string, c: char)
    ensures Symbols(a + [c])
      == (if Symbols(a).None? || SymbolOf(c).None? then None else Some(Symbols(a).value + [SymbolOf(c).value]))
  {
    hide SymbolOf;
    assert (a + [c])[..|a|] == a;
  }

  lemma {:induction false} SymbolsSwap(a: string, c: char, d: char, b: string)
    requires SymbolOf(c) == SymbolOf(d)
    ensures Symbols(a + [c] + b) == Symbols(a + [d] + b)
  {
    hide SymbolOf;
    if b == "" {
      SymbolsSnoc(a, c);
      SymbolsSnoc(a, d);
      assert a + [c] + b == a + [c] && a + [d] + b == a + [d];
    } else {
      var front, last := b[..|b| - 1], b[|b| - 1];
      SymbolsSwap(a, c, d, front);
      SymbolsSnoc(a + [c] + front, last);
      SymbolsSnoc(a + [d] + front, last);
      assert a + [c] + b == (a + [c] + front) + [last] && a + [d] + b == (a + [d] + front) + [last];
    }
  }

  lemma AsciiCleaned(other: char -> string, c: char)
    requires c < 128 as char
    ensures Cleaned(other, [c]) == if IsSeparator(c) then "" else [AsciiUpper(c)]
  {
    var u := AsciiUpper(c);
    assert IsSeparator(u) <==> IsSeparator(c);
    assert Cleaned(other, [c]) == WithoutSeparators([u]) + Cleaned(other, [c][1..]);
    assert WithoutSeparators([u]) == (if IsSeparator(u) then "" else [u]) + WithoutSeparators([u][1..]);
  }

  lemma CleanedThree(other: char -> string, a: string, c: char, b: string)
    ensures Cleaned(other, a + [c] + b) == Cleaned(other, a) + Cleaned(other, [c]) + Cleaned(other, b)
  {
    CleanedConcat(other, a + [c], b);
    CleanedConcat(other, a, [c]);
  }

  lemma SlipIsForgiven(other: char -> string, text: string, s: Slip, bytes: seq<byte>)
    requires IsSlip(other, text, s) && KeepsSpace(other)
    ensures Spells(other, Slipped(other, text, s), bytes) <==> Spells(other, text, bytes)
  {
    hide Encoded, Cleaned, IsSeparator, SymbolOf;
    match s
    case Separator(at, c) =>
      CleanedThree(other, text[..at], c, text[at..]);
      SeparatorsVanish(other, c);
      CleanedConcat(other, text[..at], text[at..]);
      assert text == text[..at] + text[at..];
      assert Cleaned(other, text[..at]) + "" == Cleaned(other, text[..at]);
    case Lookalike(at, c) =>
      var a, b := text[..at], text[at + 1..];
      CleanedThree(other, a, c, b);
      CleanedThree(other, a, text[at], b);
      var u, v := Cleaned(other, [c]), Cleaned(other, [text[at]]);
      assert u == [u[0]] && v == [v[0]];
      SymbolsSwap(Cleaned(other, a), u[0], v[0], Cleaned(other, b));
      assert text == a + [text[at]] + b;
  }

  predicate AreSlips(other: char -> string, text: string, slips: seq<Slip>)
    decreases slips
  {
    slips == [] || (IsSlip(other, text, slips[0]) && AreSlips(other, Slipped(other, text, slips[0]), slips[1..]))
  }

  function AllSlipped(other: char -> string, text: string, slips: seq<Slip>): string
    requires AreSlips(other, text, slips)
    decreases slips
  {
    if slips == [] then text else AllSlipped(other, Slipped(other, text, slips[0]), slips[1..])
  }

  lemma {:induction false} SlipsAreForgiven(other: char -> string, text: string, slips: seq<Slip>, bytes: seq<byte>)
    requires AreSlips(other, text, slips) && KeepsSpace(other)
    ensures Spells(other, AllSlipped(other, text, slips), bytes) <==> Spells(other, text, bytes)
    decreases slips
  {
    hide Spells, IsSlip, Slipped, KeepsSpace;
    if slips != [] {
      SlipIsForgiven(other, text, slips[0], bytes);
      SlipsAreForgiven(other, Slipped(other, text, slips[0]), slips[1..], bytes);
    }
  }

  /** However often it is miscopied in these ways, the kit reads as its key; and no text reads as two keys. */
  lemma SloppyCopyReadsBack(other: char -> string, hash: seq<byte> -> Digest, key: seq<byte>, slips: seq<Slip>,
      bytes: seq<byte>)
    requires IsRecoveryKey(key) && AreSlips(other, Kit(hash, key), slips) && KeepsSpace(other) && |bytes| == KIT_BYTES
    ensures Spells(other, AllSlipped(other, Kit(hash, key), slips), bytes) <==> bytes == key + Checksum(hash, key)
    ensures Verdict(hash, key + Checksum(hash, key)) == Ok(key)
    ensures ReadText(other, hash, AllSlipped(other, Kit(hash, key), slips)) == Ok(key)
  {
    hide Encoded, Checksum, Kit, AllSlipped, AreSlips, Cleaned, KeepsSpace, Spells, Verdict;
    var own := key + Checksum(hash, key);
    KitReadsBack(other, hash, key);
    SlipsAreForgiven(other, Kit(hash, key), slips, own);
    SlipsAreForgiven(other, Kit(hash, key), slips, bytes);
    SpellsOne(other, Kit(hash, key), own, bytes);
    forall again: seq<byte> | |again| == KIT_BYTES && Spells(other, AllSlipped(other, Kit(hash, key), slips), again)
      ensures again == own
    {
      SlipsAreForgiven(other, Kit(hash, key), slips, again);
      SpellsOne(other, Kit(hash, key), own, again);
    }
  }

  lemma SpellsOne(other: char -> string, text: string, a: seq<byte>, b: seq<byte>)
    requires |a| == |b| && Spells(other, text, a)
    ensures Spells(other, text, b) <==> b == a
  {
    hide Encoded, Cleaned;
    if Spells(other, text, b) {
      EncodedDecodes(a);
      EncodedDecodes(b);
      DecodesUniquely(Encoded(a), a, b);
    }
  }

  // ---- The wrapping key of a kit, and the rules for replacing one ----

  const RWK_SALT_LABEL := Ascii("4allpass-rwk-salt-v1")
  const RWK_INFO_LABEL := Ascii("4allpass-recovery-wrap-v1")

  function VaultFields(vaultId: seq<byte>): seq<seq<byte>> {
    [vaultId] + Numbers([CRYPTO_PROTOCOL_VERSION])
  }

  lemma VaultFieldsFit(heading: seq<byte>, vaultId: seq<byte>)
    requires |heading| <= 100 && IsId(vaultId)
    ensures Framing.Fits(Short, [heading] + VaultFields(vaultId)) && Framing.Fits(Short, [heading] + [vaultId])
  {
  }

  function RwkSalt(p: Primitives, vaultId: seq<byte>): seq<byte>
    requires IsId(vaultId)
  {
    VaultFieldsFit(RWK_SALT_LABEL, vaultId);
    p.crypto.hash(EncodeAad(RWK_SALT_LABEL, [vaultId]))
  }

  function RwkInfo(vaultId: seq<byte>): seq<byte>
    requires IsId(vaultId)
  {
    VaultFieldsFit(RWK_INFO_LABEL, vaultId);
    EncodeAad(RWK_INFO_LABEL, VaultFields(vaultId))
  }

  function DeriveRecoveryWrappingKey(p: Primitives, recoveryKey: seq<byte>, vaultId: seq<byte>): Result<seq<byte>> {
    if !IsRecoveryKey(recoveryKey) || !IsId(vaultId) then Err(Protocol)
    else Ok(p.hkdf(recoveryKey, RwkSalt(p, vaultId), RwkInfo(vaultId)))
  }

  datatype Reason = Create | TrustedReplacement | CompromisedRotation

  /** Which generation and which key a new kit may have, given the one it replaces. */
  predicate ReasonOk(reason: Reason, recoveryKey: seq<byte>, generation: int, previous: Option<int>,
      previousKey: Option<seq<byte>>) {
    match reason
    case Create => previous.None?
    case TrustedReplacement =>
      previous == Some(generation) && previousKey.Some? && IsRecoveryKey(previousKey.value)
      && previousKey.value != recoveryKey
    case CompromisedRotation =>
      previous.Some? && IsVersion(previous.value) && generation == previous.value + 1
      && (previousKey.Some? ==> IsRecoveryKey(previousKey.value) && previousKey.value != recoveryKey)
  }

  function WrapRecoveryEnvelope(
    p: Primitives, nonce: seq<byte>, reason: Reason, vaultKey: seq<byte>, recoveryKey: seq<byte>, vaultId: seq<byte>,
    generation: int, previous: Option<int>, previousKey: Option<seq<byte>>): Result<KeyEnvelope>
  {
    if !IsId(vaultId) || !IsVersion(generation) || !IsRecoveryKey(recoveryKey)
       || !ReasonOk(reason, recoveryKey, generation, previous, previousKey) then Err(Protocol)
    else
      var wrappingKey :- DeriveRecoveryWrappingKey(p, recoveryKey, vaultId);
      WrapVaultKey(p.crypto, nonce, vaultKey, wrappingKey, vaultId, Recovery, CRYPTO_PROTOCOL_VERSION, generation,
        None, None, None)
  }

  /** The HKDF tells the two kits apart. */
  ghost predicate DistinctKits(p: Primitives, key0: seq<byte>, vault0: seq<byte>, key1: seq<byte>, vault1: seq<byte>)
    requires IsId(vault0) && IsId(vault1)
  {
    p.hkdf(key0, RwkSalt(p, vault0), RwkInfo(vault0)) == p.hkdf(key1, RwkSalt(p, vault1), RwkInfo(vault1))
    ==> key0 == key1 && RwkInfo(vault0) == RwkInfo(vault1)
  }

  function KitFields(vaultId: seq<byte>, generation: int): EnvelopeFields {
    EnvelopeFields(vaultId, Recovery, CRYPTO_PROTOCOL_VERSION, generation, [], 0, None)
  }

  /**
   * The envelope of a kit opens with that very kit, for its vault and generation; any other print, the stolen one
   * included, fails.
   */
  lemma KitOpensItsEnvelopeOnly(
    p: Primitives, nonce: seq<byte>, reason: Reason, vaultKey: seq<byte>, recoveryKey: seq<byte>, vaultId: seq<byte>,
    generation: int, previous: Option<int>, previousKey: Option<seq<byte>>, v: KeyEnvelope,
    key: seq<byte>, inVault: seq<byte>, asked: int)
    requires WrapRecoveryEnvelope(p, nonce, reason, vaultKey, recoveryKey, vaultId, generation, previous, previousKey)
      == Ok(v)
    requires FieldsOk(KitFields(vaultId, generation))
    requires IdealEnvelope(p.crypto, v, DeriveRecoveryWrappingKey(p, recoveryKey, vaultId).value,
               KitFields(vaultId, generation), vaultKey)
    requires IsRecoveryKey(key) && IsId(inVault) && DistinctKits(p, recoveryKey, vaultId, key, inVault)
    ensures var opening := UnwrapVaultKey(p.crypto, v, DeriveRecoveryWrappingKey(p, key, inVault).value,
                             Expected(inVault, Recovery, asked, None, None));
      && (opening.Ok? <==> key == recoveryKey && inVault == vaultId && asked == generation)
      && (opening.Ok? ==> opening.value == vaultKey)
    ensures reason == CompromisedRotation ==> previous == Some(generation - 1)
    ensures reason != Create && previousKey.Some? ==> previousKey.value != recoveryKey
  {
    hide WrapVaultKey, IdealEnvelope, UnwrapVaultKey, RwkSalt, RwkInfo, FieldsOk, IsId;
    var wrappingKey := DeriveRecoveryWrappingKey(p, recoveryKey, vaultId).value;
    EnvelopeOpensExactlyAsWrapped(
      p.crypto, nonce, vaultKey, wrappingKey, vaultId, Recovery, generation, None, None, None, v,
      KitFields(vaultId, generation), DeriveRecoveryWrappingKey(p, key, inVault).value,
      Expected(inVault, Recovery, asked, None, None));
  }
}

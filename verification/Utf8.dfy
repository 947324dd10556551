/** Strings as their UTF-8 bytes: well-formedness, and what TextDecoder makes of them. */
module Utf8 {
  import opened Common
  import opened Bytes

  predicate Continuation(b: byte) {
    0x80 <= b <= 0xBF
  }

  /** Length of the well-formed sequence at the front of s, 0 if there is none (Unicode, Table 3-7). */
  function SequenceLength(s: seq<byte>): (n: nat)
    requires s != []
    ensures n <= |s|
  {
    var lead := s[0];
    if lead <= 0x7F then 1
    else if 0xC2 <= lead <= 0xDF && |s| >= 2 && Continuation(s[1]) then 2
    else if |s| >= 3 && Continuation(s[2])
      && ((lead == 0xE0 && 0xA0 <= s[1] <= 0xBF)
        || (0xE1 <= lead <= 0xEC && Continuation(s[1]))
        || (lead == 0xED && 0x80 <= s[1] <= 0x9F)
        || (0xEE <= lead <= 0xEF && Continuation(s[1]))) then 3
    else if |s| >= 4 && Continuation(s[2]) && Continuation(s[3])
      && ((lead == 0xF0 && 0x90 <= s[1] <= 0xBF)
        || (0xF1 <= lead <= 0xF3 && Continuation(s[1]))
        || (lead == 0xF4 && 0x80 <= s[1] <= 0x8F)) then 4
    else 0
  }

  predicate WellFormed(s: seq<byte>) {
    s == [] || (SequenceLength(s) > 0 && WellFormed(s[SequenceLength(s)..]))
  }

  const BOM: seq<byte> := [0xEF, 0xBB, 0xBF]

  predicate StartsWithBom(s: seq<byte>) {
    BOM <= s
  }

  /** new TextDecoder("utf-8", { fatal: true }): refuses ill-formed bytes, drops one leading BOM. */
  function Decode(s: seq<byte>): Option<seq<byte>> {
    if !WellFormed(s) then None
    else if StartsWithBom(s) then Some(s[3..])
    else Some(s)
  }

  lemma BomKeepsWellFormed(s: seq<byte>)
    ensures WellFormed(BOM + s) == WellFormed(s)
    ensures WellFormed(s) ==> Decode(BOM + s) == Some(s)
  {
    assert SequenceLength(BOM + s) == 3;
    assert (BOM + s)[3..] == s;
  }

  /** Decoding gives the bytes back exactly when no BOM leads them. */
  lemma DecodeIsIdentity(s: seq<byte>)
    ensures WellFormed(s) ==> (Decode(s) == Some(s) <==> !StartsWithBom(s))
    ensures Decode(s).Some? ==> WellFormed(Decode(s).value)
  {
    if WellFormed(s) && StartsWithBom(s) {
      assert s == BOM + s[3..];
      BomKeepsWellFormed(s[3..]);
    }
  }

  lemma {:induction false} AsciiIsWellFormed(s: seq<byte>)
    requires forall i :: 0 <= i < |s| ==> s[i] <= 0x7F
    ensures WellFormed(s)
  {
    if s != [] {
      AsciiIsWellFormed(s[1..]);
    }
  }
}

/** UTF-8 as section 3 of RFC 3629 defines it, over Python's code points. */
module Utf8 {
  import opened Ordering
  import opened Results

  /** str.encode("utf-8", "strict") fails on anything but scalar values. */
  predicate IsScalar(c: CodePoint) {
    !(0xD800 <= c <= 0xDFFF)
  }

  predicate Encodable(t: Text) {
    forall i | 0 <= i < |t| :: IsScalar(t[i])
  }

  function EncodePoint(c: CodePoint): (s: seq<Byte>)
    ensures 1 <= |s| <= 4
  {
    if c < 0x80 then [c]
    else if c < 0x800 then [0xC0 + c / 64, 0x80 + c % 64]
    else if c < 0x1_0000 then [0xE0 + c / 4096, 0x80 + c / 64 % 64, 0x80 + c % 64]
    else [0xF0 + c / 262144, 0x80 + c / 4096 % 64, 0x80 + c / 64 % 64, 0x80 + c % 64]
  }

  function Encode(t: Text): seq<Byte> {
    if t == [] then [] else EncodePoint(t[0]) + Encode(t[1..])
  }

  /** How many bytes the character starting with `b` takes. */
  function Width(b: Byte): nat {
    if b < 0x80 then 1 else if b < 0xE0 then 2 else if b < 0xF0 then 3 else 4
  }

  function DecodePoint(s: seq<int>): int
    requires 1 <= |s| <= 4
  {
    if |s| == 1 then s[0]
    else if |s| == 2 then (s[0] - 0xC0) * 64 + (s[1] - 0x80)
    else if |s| == 3 then (s[0] - 0xE0) * 4096 + (s[1] - 0x80) * 64 + (s[2] - 0x80)
    else (s[0] - 0xF0) * 262144 + (s[1] - 0x80) * 4096 + (s[2] - 0x80) * 64 + (s[3] - 0x80)
  }

  function Decode(s: seq<Byte>): Option<Text> {
    if s == [] then Some([])
    else if Width(s[0]) > |s| then None
    else
      var c := DecodePoint(s[..Width(s[0])]);
      if !(0 <= c < 0x11_0000) then None
      else
        match Decode(s[Width(s[0])..])
        case None => None
        case Some(rest) => Some([c] + rest)
  }

  lemma Digits(c: nat)
    ensures c / 4096 * 4096 + c / 64 % 64 * 64 + c % 64 == c
    ensures c / 262144 * 262144 + c / 4096 % 64 * 4096 + c / 64 % 64 * 64 + c % 64 == c
  {
    assert c / 64 / 64 == c / 4096;
    assert c / 4096 / 64 == c / 262144;
  }

  lemma DecodeEncodePoint(c: CodePoint)
    ensures |EncodePoint(c)| == Width(EncodePoint(c)[0])
    ensures DecodePoint(EncodePoint(c)) == c
  {
    Digits(c);
  }

  lemma {:induction false} DecodeEncode(t: Text)
    ensures Decode(Encode(t)) == Some(t)
  {
    if t != [] {
      DecodeEncodePoint(t[0]);
      DecodeEncode(t[1..]);
      var s := Encode(t);
      assert s[..|EncodePoint(t[0])|] == EncodePoint(t[0]);
      assert s[|EncodePoint(t[0])|..] == Encode(t[1..]);
      assert t == [t[0]] + t[1..];
    }
  }

  /** Different strings have different bytes. */
  lemma Injective(a: Text, b: Text)
    ensures Encode(a) == Encode(b) <==> a == b
  {
    DecodeEncode(a);
    DecodeEncode(b);
  }

  /** encode("ascii") */
  function AsciiBytes(d: Text): (s: seq<Byte>)
    requires forall i | 0 <= i < |d| :: d[i] < 128
    ensures |s| == |d| && forall i | 0 <= i < |d| :: s[i] == d[i]
  {
    if d == [] then [] else [d[0]] + AsciiBytes(d[1..])
  }
}

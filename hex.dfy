/** `binascii.unhexlify` and `binascii.hexlify`.

    `unhexlify` accepts both letter cases and fails on an odd length or on
    any character that is not a hexadecimal digit; `hexlify` writes lower
    case. */
module Hex {
  import opened Wrappers
  import opened Wire

  function HexValue(c: char): (r: Option<nat>)
    ensures r.Some? ==> r.value < 16
  {
    if '0' <= c <= '9' then Some(c as int - '0' as int)
    else if 'a' <= c <= 'f' then Some(c as int - 'a' as int + 10)
    else if 'A' <= c <= 'F' then Some(c as int - 'A' as int + 10)
    else None
  }

  predicate IsHexDigit(c: char) { HexValue(c).Some? }

  /** The byte that the two digits at positions 2i and 2i+1 stand for. */
  function PairValue(s: string, i: nat): byte
    requires 2 * i + 1 < |s|
    requires IsHexDigit(s[2 * i]) && IsHexDigit(s[2 * i + 1])
  {
    16 * HexValue(s[2 * i]).value + HexValue(s[2 * i + 1]).value
  }

  function Unhexlify(s: string): (r: Option<seq<byte>>)
    ensures r.Some? <==> |s| % 2 == 0 && forall i :: 0 <= i < |s| ==> IsHexDigit(s[i])
    ensures r.Some? ==> |r.value| == |s| / 2
    ensures r.Some? ==> forall i :: 0 <= i < |r.value| ==> r.value[i] == PairValue(s, i)
    decreases |s|
  {
    if |s| == 0 then Some([])
    else if |s| == 1 then None
    else if !IsHexDigit(s[0]) || !IsHexDigit(s[1]) then None
    else
      match Unhexlify(s[2..])
      case None => None
      case Some(rest) =>
        assert forall i :: 1 <= i < |rest| + 1 ==> s[2 * i] == s[2..][2 * (i - 1)];
        Some([PairValue(s, 0)] + rest)
  }

  function HexDigit(d: nat): (c: char)
    requires d < 16
    ensures HexValue(c) == Some(d)
  {
    if d < 10 then ('0' as int + d) as char else ('a' as int + d - 10) as char
  }

  function Hexlify(b: seq<byte>): (s: string)
    ensures |s| == 2 * |b|
    ensures forall i :: 0 <= i < |s| ==> IsHexDigit(s[i])
  {
    if b == [] then "" else [HexDigit(b[0] / 16), HexDigit(b[0] % 16)] + Hexlify(b[1..])
  }

  /** Each byte b[i] becomes the two digits at 2i and 2i+1. */
  lemma {:induction false} HexlifyAt(b: seq<byte>, i: nat)
    requires i < |b|
    ensures Hexlify(b)[2 * i] == HexDigit(b[i] / 16)
    ensures Hexlify(b)[2 * i + 1] == HexDigit(b[i] % 16)
  {
    if i > 0 {
      HexlifyAt(b[1..], i - 1);
    }
  }

  /** The two digits written for b[i] read back as b[i]. */
  lemma PairOfHexlify(b: seq<byte>, i: nat)
    requires i < |b|
    ensures 2 * i + 1 < |Hexlify(b)|
    ensures PairValue(Hexlify(b), i) == b[i]
  {
    HexlifyAt(b, i);
    var x := b[i];
    assert PairValue(Hexlify(b), i) == 16 * (x / 16) + x % 16;
  }

  /** `unhexlify(hexlify(b)) == b`. */
  lemma UnhexlifyHexlify(b: seq<byte>)
    ensures Unhexlify(Hexlify(b)) == Some(b)
  {
    var s := Hexlify(b);
    var r := Unhexlify(s);
    assert r.Some?;
    forall i | 0 <= i < |b|
      ensures r.value[i] == b[i]
    {
      PairOfHexlify(b, i);
    }
    assert |r.value| == |b|;
    assert r.value == b;
  }

  /** No hexadecimal string spells the sentinel "NO PASSWORD". */
  lemma HexlifyIsNotSentinel(b: seq<byte>)
    ensures Hexlify(b) != "NO PASSWORD"
  {
    assert !IsHexDigit("NO PASSWORD"[0]);
  }

  /** A byte string seen as the Python 2 `str` it is: one character per byte. */
  function Latin1(b: seq<byte>): (s: string)
    ensures |s| == |b|
    ensures forall i :: 0 <= i < |b| ==> s[i] as int == b[i]
  {
    seq(|b|, i requires 0 <= i < |b| => b[i] as char)
  }

  /** The bytes of a text whose characters all fit in a byte: the inverse
      of Latin1. */
  function AsciiBytes(s: string): (b: seq<byte>)
    requires forall i :: 0 <= i < |s| ==> s[i] as int < 0x100
    ensures Latin1(b) == s
  {
    var b: seq<byte> := seq(|s|, i requires 0 <= i < |s| => s[i] as int);
    assert forall i :: 0 <= i < |s| ==> Latin1(b)[i] == s[i];
    b
  }

  /** Hexadecimal digits are ASCII. */
  lemma HexDigitsFitBytes(s: string)
    requires forall i :: 0 <= i < |s| ==> IsHexDigit(s[i])
    ensures forall i :: 0 <= i < |s| ==> s[i] as int < 0x100
  {
  }
}

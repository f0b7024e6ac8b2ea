/** `bytes.decode('utf-16')` and `unicode.split`, on UTF-16 code units.

    The decoder takes its byte order from a leading byte-order mark (FF FE
    little-endian, FE FF big-endian) and drops the mark; without one it reads
    little-endian, the host order. It fails on an odd number of bytes and on
    a surrogate that is not part of a high-low pair. Decoded text is kept as
    the sequence of 16-bit code units it consists of. */
module Utf16 {
  import opened Wrappers
  import opened Wire

  type Text16 = seq<u16>

  /** The code unit held by bytes 2i and 2i+1. */
  function UnitAt(b: seq<byte>, i: nat, bigEndian: bool): u16
    requires 2 * i + 1 < |b|
  {
    if bigEndian then 0x100 * b[2 * i] as int + b[2 * i + 1] as int
    else b[2 * i] as int + 0x100 * b[2 * i + 1] as int
  }

  function Units(b: seq<byte>, bigEndian: bool): (u: Text16)
    requires |b| % 2 == 0
    ensures |u| == |b| / 2
  {
    seq(|b| / 2, i requires 0 <= i < |b| / 2 => UnitAt(b, i, bigEndian))
  }

  predicate IsHighSurrogate(c: u16) { 0xD800 <= c <= 0xDBFF }
  predicate IsLowSurrogate(c: u16) { 0xDC00 <= c <= 0xDFFF }

  /** Every surrogate is half of a high-low pair. */
  predicate WellFormed(u: Text16)
    decreases |u|
  {
    if u == [] then true
    else if !IsHighSurrogate(u[0]) && !IsLowSurrogate(u[0]) then WellFormed(u[1..])
    else IsHighSurrogate(u[0]) && |u| >= 2 && IsLowSurrogate(u[1]) && WellFormed(u[2..])
  }

  predicate HasLittleEndianMark(b: seq<byte>) { |b| >= 2 && b[0] == 0xFF && b[1] == 0xFE }
  predicate HasBigEndianMark(b: seq<byte>) { |b| >= 2 && b[0] == 0xFE && b[1] == 0xFF }

  /** The code units a byte string stands for, before the well-formedness check. */
  function RawUnits(b: seq<byte>): Text16
    requires |b| % 2 == 0
  {
    if HasLittleEndianMark(b) then Units(b[2..], false)
    else if HasBigEndianMark(b) then Units(b[2..], true)
    else Units(b, false)
  }

  function DecodeUtf16(b: seq<byte>): Option<Text16>
  {
    if |b| % 2 != 0 then None
    else
      var u := RawUnits(b);
      if WellFormed(u) then Some(u) else None
  }

  /** `decode('utf-16')`: an odd length fails; a leading FF FE or FE FF mark
      selects the byte order and is dropped, and without one the order is
      little-endian; the code units are the result exactly when every
      surrogate among them is paired. */
  lemma DecodeUtf16Cases(b: seq<byte>)
    ensures |b| % 2 != 0 ==> DecodeUtf16(b).None?
    ensures |b| % 2 == 0 && HasLittleEndianMark(b) ==>
      DecodeUtf16(b) == (if WellFormed(Units(b[2..], false)) then Some(Units(b[2..], false)) else None)
    ensures |b| % 2 == 0 && HasBigEndianMark(b) ==>
      DecodeUtf16(b) == (if WellFormed(Units(b[2..], true)) then Some(Units(b[2..], true)) else None)
    ensures |b| % 2 == 0 && !HasLittleEndianMark(b) && !HasBigEndianMark(b) ==>
      DecodeUtf16(b) == (if WellFormed(Units(b, false)) then Some(Units(b, false)) else None)
    ensures DecodeUtf16(b).Some? ==> WellFormed(DecodeUtf16(b).value)
    ensures DecodeUtf16(b).Some? ==> 2 * |DecodeUtf16(b).value| <= |b| <= 2 * |DecodeUtf16(b).value| + 2
  {
  }

  /** `unicode.encode('utf-16-le')`: little-endian, no byte-order mark. */
  function EncodeUtf16(u: Text16): (b: seq<byte>)
    ensures |b| == 2 * |u|
  {
    if u == [] then [] else EncodeU16(u[0]) + EncodeUtf16(u[1..])
  }

  lemma {:induction false} EncodeUtf16At(u: Text16, i: nat)
    requires i < |u|
    ensures UnitAt(EncodeUtf16(u), i, false) == u[i]
  {
    var b := EncodeUtf16(u);
    if i == 0 {
      U16RoundTrip([], u[0], EncodeUtf16(u[1..]));
      assert b == [] + EncodeU16(u[0]) + EncodeUtf16(u[1..]);
    } else {
      EncodeUtf16At(u[1..], i - 1);
      assert b[2 * i] == EncodeUtf16(u[1..])[2 * (i - 1)];
      assert b[2 * i + 1] == EncodeUtf16(u[1..])[2 * (i - 1) + 1];
    }
  }

  /** Decoding what was encoded gives the text back, unless its first unit
      would be read as a byte-order mark (U+FEFF, or U+FFFE which encodes as
      the big-endian mark). */
  lemma DecodeEncodeUtf16(u: Text16)
    requires WellFormed(u)
    requires u == [] || (u[0] != 0xFEFF && u[0] != 0xFFFE)
    ensures DecodeUtf16(EncodeUtf16(u)) == Some(u)
  {
    var b := EncodeUtf16(u);
    if u != [] {
      EncodeUtf16At(u, 0);
      assert !HasLittleEndianMark(b) && !HasBigEndianMark(b);
    }
    forall i | 0 <= i < |u|
      ensures Units(b, false)[i] == u[i]
    {
      EncodeUtf16At(u, i);
    }
    assert RawUnits(b) == u;
  }

  /** `s.split(sep)`: the pieces between separators, empty pieces kept. */
  function Split(u: Text16, sep: u16): (r: seq<Text16>)
    ensures |r| >= 1
    ensures forall i :: 0 <= i < |r| ==> sep !in r[i]
    decreases |u|
  {
    if u == [] then [[]]
    else
      var rest := Split(u[1..], sep);
      if u[0] == sep then [[]] + rest
      else [[u[0]] + rest[0]] + rest[1..]
  }

  /** `sep.join(pieces)`. */
  function Join(pieces: seq<Text16>, sep: u16): Text16
    requires |pieces| >= 1
    decreases |pieces|
  {
    if |pieces| == 1 then pieces[0] else pieces[0] + [sep] + Join(pieces[1..], sep)
  }

  function Count(u: Text16, x: u16): nat
    decreases |u|
  {
    if u == [] then 0 else (if u[0] == x then 1 else 0) + Count(u[1..], x)
  }

  /** Joining the pieces with the separator restores the text. */
  lemma {:induction false} JoinSplit(u: Text16, sep: u16)
    ensures Join(Split(u, sep), sep) == u
    decreases |u|
  {
    if u != [] {
      var rest := Split(u[1..], sep);
      JoinSplit(u[1..], sep);
      if u[0] == sep {
        assert Split(u, sep)[1..] == rest;
      } else if |rest| == 1 {
        assert Split(u, sep) == [[u[0]] + rest[0]];
      } else {
        var r := Split(u, sep);
        assert r[1..] == rest[1..];
        assert Join(rest, sep) == rest[0] + [sep] + Join(rest[1..], sep);
      }
    }
  }

  /** One piece per separator plus one: no piece is dropped, empty or not. */
  lemma {:induction false} SplitCount(u: Text16, sep: u16)
    ensures |Split(u, sep)| == Count(u, sep) + 1
    decreases |u|
  {
    if u != [] {
      SplitCount(u[1..], sep);
    }
  }

  /** Splitting a join of separator-free pieces gives those pieces back. */
  lemma {:induction false} SplitJoin(pieces: seq<Text16>, sep: u16)
    requires |pieces| >= 1
    requires forall i :: 0 <= i < |pieces| ==> sep !in pieces[i]
    ensures Split(Join(pieces, sep), sep) == pieces
    decreases |pieces|, |pieces[0]|
  {
    if |pieces| == 1 {
      SplitFree(pieces[0], sep);
    } else if pieces[0] == [] {
      SplitJoin(pieces[1..], sep);
      SplitJoinEmptyHead(pieces, sep);
    } else {
      var shorter := [pieces[0][1..]] + pieces[1..];
      assert forall i :: 1 <= i < |shorter| ==> shorter[i] == pieces[i];
      SplitJoin(shorter, sep);
      SplitJoinShorterHead(pieces, sep);
    }
  }

  /** The step of SplitJoin for an empty first piece. */
  lemma SplitJoinEmptyHead(pieces: seq<Text16>, sep: u16)
    requires |pieces| >= 2 && pieces[0] == []
    requires Split(Join(pieces[1..], sep), sep) == pieces[1..]
    ensures Split(Join(pieces, sep), sep) == pieces
  {
    var tail := Join(pieces[1..], sep);
    SplitCons(sep, tail, sep);
    assert Join(pieces, sep) == [sep] + tail;
    assert [[]] + pieces[1..] == pieces;
  }

  /** The step of SplitJoin for a first piece that is not empty and holds no
      separator. */
  lemma SplitJoinShorterHead(pieces: seq<Text16>, sep: u16)
    requires |pieces| >= 2 && pieces[0] != [] && sep !in pieces[0]
    requires Split(Join([pieces[0][1..]] + pieces[1..], sep), sep) == [pieces[0][1..]] + pieces[1..]
    ensures Split(Join(pieces, sep), sep) == pieces
  {
    var p0 := pieces[0];
    var shorter := [p0[1..]] + pieces[1..];
    assert shorter[1..] == pieces[1..];
    SplitCons(p0[0], Join(shorter, sep), sep);
    assert Join(pieces, sep) == [p0[0]] + Join(shorter, sep);
    assert [p0[0]] + p0[1..] == p0;
    assert [[p0[0]] + p0[1..]] + shorter[1..] == pieces;
  }

  /** Split on a text with a known first unit. */
  lemma SplitCons(c: u16, u: Text16, sep: u16)
    ensures c == sep ==> Split([c] + u, sep) == [[]] + Split(u, sep)
    ensures c != sep ==> Split([c] + u, sep) == [[c] + Split(u, sep)[0]] + Split(u, sep)[1..]
  {
    assert ([c] + u)[1..] == u;
  }

  lemma {:induction false} SplitFree(u: Text16, sep: u16)
    requires sep !in u
    ensures Split(u, sep) == [u]
    decreases |u|
  {
    if u != [] {
      SplitFree(u[1..], sep);
      assert [u[0]] + u[1..] == u;
    }
  }

  /** An ASCII literal as the code units it decodes to. */
  function Wide(s: string): (u: Text16)
    ensures |u| == |s|
  {
    seq(|s|, i requires 0 <= i < |s| => (s[i] as int) % 0x1_0000)
  }

  /** Wide distributes over concatenation. */
  lemma WideAppend(a: string, b: string)
    ensures Wide(a + b) == Wide(a) + Wide(b)
  {
    assert forall i :: 0 <= i < |a| ==> (a + b)[i] == a[i];
    assert forall i :: |a| <= i < |a| + |b| ==> (a + b)[i] == b[i - |a|];
  }
}

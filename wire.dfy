/** Byte strings and the little-endian readers the parsers use.

    The source reads every integer as `unpack(fmt, text[o:o+w])[0]` with the
    native formats 'H' (unsigned 16 bits), 'I' (unsigned 32 bits) and 'i'
    (signed 32 bits) on a little-endian host, and reads single bytes with
    `ord(text[o:o+1])`. A Python slice is clipped at the end of the string,
    so the read fails exactly when fewer than `w` bytes remain. */
module Wire {
  import opened Wrappers

  type byte = x: int | 0 <= x < 0x100
  type u16 = x: int | 0 <= x < 0x1_0000
  type u32 = x: int | 0 <= x < 0x1_0000_0000

  function Min(a: nat, b: nat): nat { if a <= b then a else b }

  /** The Python slice `s[lo:hi]` for non-negative bounds: whatever of
      positions lo .. hi-1 lies inside `s`. */
  function Slice<T>(s: seq<T>, lo: nat, hi: nat): (r: seq<T>)
    ensures |r| == if lo < hi && lo < |s| then Min(hi, |s|) - lo else 0
    ensures forall i :: 0 <= i < |r| ==> r[i] == s[lo + i]
    ensures hi <= |s| && lo <= hi ==> r == s[lo..hi]
  {
    if hi <= lo || |s| <= lo then [] else s[lo..Min(hi, |s|)]
  }

  function U16At(s: seq<byte>, o: nat): u16
    requires o + 2 <= |s|
  {
    s[o] as int + 0x100 * s[o + 1] as int
  }

  function U32At(s: seq<byte>, o: nat): u32
    requires o + 4 <= |s|
  {
    s[o] as int + 0x100 * s[o + 1] as int + 0x1_0000 * s[o + 2] as int + 0x100_0000 * s[o + 3] as int
  }

  /** Two's-complement reading of the same four bytes. */
  function I32At(s: seq<byte>, o: nat): (r: int)
    requires o + 4 <= |s|
    ensures -0x8000_0000 <= r < 0x8000_0000
    ensures r >= 0 ==> r == U32At(s, o)
    ensures r < 0 ==> r + 0x1_0000_0000 == U32At(s, o)
  {
    var v := U32At(s, o);
    if v < 0x8000_0000 then v else v - 0x1_0000_0000
  }

  /** `ord(s[o:o+1])`: fails on an empty slice. */
  function ReadByte(s: seq<byte>, o: nat): (r: Option<byte>)
    ensures r.Some? <==> o < |s|
    ensures r.Some? <==> |Slice(s, o, o + 1)| == 1
    ensures r.Some? ==> r.value == s[o]
  {
    if o < |s| then Some(s[o]) else None
  }

  /** `unpack('H', s[o:o+2])[0]`. */
  function ReadU16(s: seq<byte>, o: nat): (r: Option<u16>)
    ensures r.Some? <==> o + 2 <= |s|
    ensures r.Some? <==> |Slice(s, o, o + 2)| == 2
    ensures r.Some? ==> r.value == U16At(s, o)
  {
    if o + 2 <= |s| then Some(U16At(s, o)) else None
  }

  /** `unpack('I', s[o:o+4])[0]`. */
  function ReadU32(s: seq<byte>, o: nat): (r: Option<u32>)
    ensures r.Some? <==> o + 4 <= |s|
    ensures r.Some? <==> |Slice(s, o, o + 4)| == 4
    ensures r.Some? ==> r.value == U32At(s, o)
  {
    if o + 4 <= |s| then Some(U32At(s, o)) else None
  }

  /** `unpack('i', s[o:o+4])[0]`. */
  function ReadI32(s: seq<byte>, o: nat): (r: Option<int>)
    ensures r.Some? <==> o + 4 <= |s|
    ensures r.Some? <==> |Slice(s, o, o + 4)| == 4
    ensures r.Some? ==> r.value == I32At(s, o)
  {
    if o + 4 <= |s| then Some(I32At(s, o)) else None
  }

  // Encoders: the inverse of the readers, used to state round trips.

  function EncodeU16(x: u16): (r: seq<byte>)
    ensures |r| == 2
  {
    [x % 0x100, x / 0x100]
  }

  function EncodeU32(x: u32): (r: seq<byte>)
    ensures |r| == 4
  {
    [x % 0x100, (x / 0x100) % 0x100, (x / 0x1_0000) % 0x100, x / 0x100_0000]
  }

  /** The four bytes `pack('i', x)` writes. */
  function EncodeI32(x: int): (r: seq<byte>)
    requires -0x8000_0000 <= x < 0x8000_0000
    ensures |r| == 4
  {
    EncodeU32(if x >= 0 then x else x + 0x1_0000_0000)
  }

  lemma U16RoundTrip(a: seq<byte>, x: u16, b: seq<byte>)
    ensures U16At(a + EncodeU16(x) + b, |a|) == x
  {
    var s := a + EncodeU16(x) + b;
    assert s[|a|] == x % 0x100 && s[|a| + 1] == x / 0x100;
  }

  lemma U32RoundTrip(a: seq<byte>, x: u32, b: seq<byte>)
    ensures U32At(a + EncodeU32(x) + b, |a|) == x
  {
    var s := a + EncodeU32(x) + b;
    assert s[|a|] == x % 0x100;
    assert s[|a| + 1] == (x / 0x100) % 0x100;
    assert s[|a| + 2] == (x / 0x1_0000) % 0x100;
    assert s[|a| + 3] == x / 0x100_0000;
  }

  lemma I32RoundTrip(a: seq<byte>, x: int, b: seq<byte>)
    requires -0x8000_0000 <= x < 0x8000_0000
    ensures I32At(a + EncodeI32(x) + b, |a|) == x
  {
    U32RoundTrip(a, if x >= 0 then x else x + 0x1_0000_0000, b);
  }
}

/** The WDigest property decoder (WDIGEST_CREDENTIALS, property
    "Primary:WDigest"): a 16-byte header followed by 29 MD5 hashes of 16
    bytes each. Every failure is swallowed and yields `None`. */
module WDigest {
  import opened Wrappers
  import opened Wire

  /** The number of hashes the header must announce. */
  const HashCount: nat := 29

  /** Reserved word r of the three 32-bit words at 4, 8 and 12 is present and
      zero. */
  predicate ReservedZero(text: seq<byte>, r: nat)
  {
    4 * r + 8 <= |text| && U32At(text, 4 * r + 4) == 0
  }

  predicate ReservedWordsZero(text: seq<byte>, count: nat)
  {
    forall r :: 0 <= r < count ==> ReservedZero(text, r)
  }

  /** Byte 0 is not checked; byte 1 must be 0, the version at 2 must be 1,
      the hash count at 3 must be 29, and the three reserved words zero. */
  predicate WDigestHeaderValid(text: seq<byte>)
  {
    |text| >= 16 && text[1] == 0 && text[2] == 1 && text[3] == HashCount && ReservedWordsZero(text, 3)
  }

  /** Hash i: the 16 bytes at 16 + 16i, as a Python slice (clipped). */
  function HashAt(text: seq<byte>, i: nat): seq<byte>
  {
    Slice(text, 16 + 16 * i, 32 + 16 * i)
  }

  /** What a WDigest property value decodes to. */
  function WDigestHashesOf(text: seq<byte>): Option<seq<seq<byte>>>
  {
    if WDigestHeaderValid(text) then Some(seq(HashCount, i requires 0 <= i < HashCount => HashAt(text, i)))
    else None
  }

  /** ParseWDigestPropertyValue: reads the four header bytes, the three
      reserved words and the 29 hashes, in that order. */
  method ParseWDigestPropertyValue(text: seq<byte>) returns (r: Option<seq<seq<byte>>>)
    ensures r == WDigestHashesOf(text)
  {
    var offset: nat := 0;
    var reserved1 := ReadByte(text, offset);
    if reserved1.None? { return None; }
    offset := offset + 1;
    var reserved2 := ReadByte(text, offset);
    if reserved2 != Some(0) { return None; }
    offset := offset + 1;
    var version := ReadByte(text, offset);
    if version != Some(1) { return None; }
    offset := offset + 1;
    var numberOfHashes := ReadByte(text, offset);
    if numberOfHashes != Some(HashCount) { return None; }
    offset := offset + 1;
    for i := 0 to 3
      invariant offset == 4 * i + 4
      invariant ReservedWordsZero(text, i)
    {
      var reserved3 := ReadU32(text, offset);
      if reserved3 != Some(0) {
        assert !ReservedZero(text, i);
        return None;
      }
      offset := offset + 4;
    }
    var hashes: seq<seq<byte>> := [];
    for i := 0 to numberOfHashes.value
      invariant offset == 16 + 16 * i
      invariant |hashes| == i
      invariant forall j :: 0 <= j < i ==> hashes[j] == HashAt(text, j)
    {
      hashes := hashes + [Slice(text, offset, offset + 16)];
      offset := offset + 16;
    }
    assert ReservedZero(text, 2);
    assert hashes == seq(HashCount, i requires 0 <= i < HashCount => HashAt(text, i));
    return Some(hashes);
  }

  /** The decoder accepts exactly the values whose header is valid, spelled
      out byte by byte. */
  lemma WDigestAccepts(text: seq<byte>)
    ensures WDigestHashesOf(text).Some? <==>
      |text| >= 16 && text[1] == 0 && text[2] == 1 && text[3] == 29
      && U32At(text, 4) == 0 && U32At(text, 8) == 0 && U32At(text, 12) == 0
  {
    if |text| >= 16 && U32At(text, 4) == 0 && U32At(text, 8) == 0 && U32At(text, 12) == 0 {
      forall r | 0 <= r < 3
        ensures ReservedZero(text, r)
      {
        assert r == 0 || r == 1 || r == 2;
      }
    }
    if WDigestHashesOf(text).Some? {
      assert ReservedZero(text, 0) && ReservedZero(text, 1) && ReservedZero(text, 2);
    }
  }

  /** On success there are exactly 29 hashes; hash i is the span at
      16 + 16i, and it is the full 16 bytes there when the value is long
      enough to hold all of them (16 + 29 * 16 = 480 bytes). */
  lemma WDigestEntries(text: seq<byte>)
    requires WDigestHashesOf(text).Some?
    ensures |WDigestHashesOf(text).value| == 29
    ensures forall i :: 0 <= i < 29 ==> WDigestHashesOf(text).value[i] == HashAt(text, i)
    ensures |text| >= 480 ==>
      forall i :: 0 <= i < 29 ==>
        |WDigestHashesOf(text).value[i]| == 16 && WDigestHashesOf(text).value[i] == text[16 + 16 * i..32 + 16 * i]
  {
  }

  /** Byte 0 (Reserved1) is never validated: replacing it changes nothing. */
  lemma WDigestIgnoresReserved1(text: seq<byte>, b: byte)
    requires |text| >= 1
    ensures WDigestHashesOf(text[0 := b]) == WDigestHashesOf(text)
  {
    var t := text[0 := b];
    assert WDigestHeaderValid(t) <==> WDigestHeaderValid(text) by {
      if |text| >= 16 {
        forall r | 0 <= r < 3
          ensures ReservedZero(t, r) <==> ReservedZero(text, r)
        {
          assert U32At(t, 4 * r + 4) == U32At(text, 4 * r + 4);
        }
      }
    }
    forall i | 0 <= i < HashCount
      ensures HashAt(t, i) == HashAt(text, i)
    {
      var x, y := HashAt(t, i), HashAt(text, i);
      assert |x| == |y|;
      forall k | 0 <= k < |x|
        ensures x[k] == y[k]
      {
      }
    }
    if WDigestHeaderValid(text) {
      assert seq(HashCount, i requires 0 <= i < HashCount => HashAt(t, i))
          == seq(HashCount, i requires 0 <= i < HashCount => HashAt(text, i));
    }
  }
}

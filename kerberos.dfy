/** The two Kerberos property decoders and their key records.

    KERB_STORED_CREDENTIAL (revision 3, property "Primary:Kerberos") and
    KERB_STORED_CREDENTIAL_NEW (revision 4, "Primary:Kerberos-Newer-Keys"),
    each a header followed by fixed-size key records (KERB_KEY_DATA, 20 bytes,
    and KERB_KEY_DATA_NEW, 24 bytes), a blank record, and the default salt.
    A record points at its key bytes by an offset from the start of the
    property value; the key bytes are read with a Python slice, so a span
    past the end is clipped rather than rejected. Every failure is swallowed
    by the decoder and yields `None`. */
module Kerberos {
  import opened Wrappers
  import opened Wire
  import opened Utf16

  /** One key record. The iteration count exists only in the revision-4
      layout; the key type is the signed encryption type code (3 DES-CBC-MD5,
      17 and 18 AES, -140 RC4). */
  datatype KerberosKey = KerberosKey(iterationCount: Option<u32>, keyType: int, key: seq<byte>)

  /** The decoded property: current, old and (revision 4 only) older keys. */
  datatype KerberosKeys = KerberosKeys(
    defaultSalt: Text16,
    credentials: seq<KerberosKey>,
    oldCredentials: seq<KerberosKey>,
    olderCredentials: seq<KerberosKey>)

  datatype Layout = KeyData | KeyDataNew

  function RecordSize(layout: Layout): nat
  {
    match layout
    case KeyData => 20
    case KeyDataNew => 24
  }

  /** A record is accepted when it lies inside the value and its reserved
      words (16 bits at 0 and 2, 32 bits at 4) are zero. */
  predicate KeyRecordValid(layout: Layout, text: seq<byte>, o: nat)
  {
    o + RecordSize(layout) <= |text|
    && U16At(text, o) == 0 && U16At(text, o + 2) == 0 && U32At(text, o + 4) == 0
  }

  /** The positions, within a record, of its key length and key offset. */
  function KeyLengthAt(layout: Layout, text: seq<byte>, o: nat): u32
    requires o + RecordSize(layout) <= |text|
  {
    match layout
    case KeyData => U32At(text, o + 12)
    case KeyDataNew => U32At(text, o + 16)
  }

  function KeyOffsetAt(layout: Layout, text: seq<byte>, o: nat): u32
    requires o + RecordSize(layout) <= |text|
  {
    match layout
    case KeyData => U32At(text, o + 16)
    case KeyDataNew => U32At(text, o + 20)
  }

  /** The key a record at `o` describes. */
  function KeyRecordAt(layout: Layout, text: seq<byte>, o: nat): KerberosKey
    requires o + RecordSize(layout) <= |text|
  {
    var keyOffset := KeyOffsetAt(layout, text, o);
    var key := Slice(text, keyOffset, keyOffset + KeyLengthAt(layout, text, o));
    match layout
    case KeyData => KerberosKey(None, I32At(text, o + 8), key)
    case KeyDataNew => KerberosKey(Some(U32At(text, o + 8)), I32At(text, o + 12), key)
  }

  /** The key bytes are the span the record names, clipped at the end of the
      value: a span that runs past the end is cut short, one that starts past
      the end is empty, and neither fails the record. */
  lemma KeySpanClipped(layout: Layout, text: seq<byte>, o: nat)
    requires o + RecordSize(layout) <= |text|
    ensures var off, len, key := KeyOffsetAt(layout, text, o), KeyLengthAt(layout, text, o), KeyRecordAt(layout, text, o).key;
      && (off + len <= |text| ==> key == text[off..off + len])
      && (off < |text| < off + len ==> key == text[off..])
      && (|text| <= off ==> key == [])
  {
  }

  /** KerberosKeyData: reads a KERB_KEY_DATA record at `offset`. */
  method KerberosKeyData(text: seq<byte>, offset: nat) returns (r: Option<(nat, KerberosKey)>)
    ensures r.Some? <==> KeyRecordValid(KeyData, text, offset)
    ensures r.Some? ==> r.value.0 == offset + 20 && r.value.1 == KeyRecordAt(KeyData, text, offset)
  {
    var o := offset;
    var reserved1 := ReadU16(text, o);
    if reserved1 != Some(0) { return None; }
    o := o + 2;
    var reserved2 := ReadU16(text, o);
    if reserved2 != Some(0) { return None; }
    o := o + 2;
    var reserved3 := ReadU32(text, o);
    if reserved3 != Some(0) { return None; }
    o := o + 4;
    var keyType := ReadI32(text, o);
    if keyType.None? { return None; }
    o := o + 4;
    var keyLength := ReadU32(text, o);
    if keyLength.None? { return None; }
    o := o + 4;
    var keyOffset := ReadU32(text, o);
    if keyOffset.None? { return None; }
    o := o + 4;
    var key := KerberosKey(None, keyType.value,
      Slice(text, keyOffset.value, keyOffset.value as nat + keyLength.value));
    return Some((o, key));
  }

  /** KerberosKeyDataNew: reads a KERB_KEY_DATA_NEW record at `offset`. */
  method KerberosKeyDataNew(text: seq<byte>, offset: nat) returns (r: Option<(nat, KerberosKey)>)
    ensures r.Some? <==> KeyRecordValid(KeyDataNew, text, offset)
    ensures r.Some? ==> r.value.0 == offset + 24 && r.value.1 == KeyRecordAt(KeyDataNew, text, offset)
  {
    var o := offset;
    var reserved1 := ReadU16(text, o);
    if reserved1 != Some(0) { return None; }
    o := o + 2;
    var reserved2 := ReadU16(text, o);
    if reserved2 != Some(0) { return None; }
    o := o + 2;
    var reserved3 := ReadU32(text, o);
    if reserved3 != Some(0) { return None; }
    o := o + 4;
    var iterationCount := ReadU32(text, o);
    if iterationCount.None? { return None; }
    o := o + 4;
    var keyType := ReadI32(text, o);
    if keyType.None? { return None; }
    o := o + 4;
    var keyLength := ReadU32(text, o);
    if keyLength.None? { return None; }
    o := o + 4;
    var keyOffset := ReadU32(text, o);
    if keyOffset.None? { return None; }
    o := o + 4;
    var key := KerberosKey(Some(iterationCount.value), keyType.value,
      Slice(text, keyOffset.value, keyOffset.value as nat + keyLength.value));
    return Some((o, key));
  }

  /** Where record j of a property value starts: after the 16-byte header of
      revision 3, or the 24-byte header of revision 4. */
  function RecordOffset(layout: Layout, j: nat): nat
  {
    match layout
    case KeyData => 16 + 20 * j
    case KeyDataNew => 24 + 24 * j
  }

  predicate RecordValid(layout: Layout, text: seq<byte>, j: nat)
  {
    KeyRecordValid(layout, text, RecordOffset(layout, j))
  }

  function Record(layout: Layout, text: seq<byte>, j: nat): KerberosKey
    requires RecordValid(layout, text, j)
  {
    KeyRecordAt(layout, text, RecordOffset(layout, j))
  }

  /** Records first .. first+count-1 are all valid. */
  predicate RunValid(layout: Layout, text: seq<byte>, first: nat, count: nat)
  {
    forall j :: first <= j < first + count ==> RecordValid(layout, text, j)
  }

  /** The keys records first .. first+count-1 describe, in wire order. */
  function Run(layout: Layout, text: seq<byte>, first: nat, count: nat): (r: seq<KerberosKey>)
    requires RunValid(layout, text, first, count)
    ensures |r| == count
  {
    seq(count, j requires 0 <= j < count => Record(layout, text, first + j))
  }

  lemma RunExtend(layout: Layout, text: seq<byte>, first: nat, count: nat)
    requires RunValid(layout, text, first, count) && RecordValid(layout, text, first + count)
    ensures RunValid(layout, text, first, count + 1)
    ensures Run(layout, text, first, count + 1)
         == Run(layout, text, first, count) + [Record(layout, text, first + count)]
  {
  }

  lemma RunSplit(layout: Layout, text: seq<byte>, first: nat, a: nat, b: nat)
    ensures RunValid(layout, text, first, a + b)
        <==> RunValid(layout, text, first, a) && RunValid(layout, text, first + a, b)
  {
    if RunValid(layout, text, first, a) && RunValid(layout, text, first + a, b) {
      forall j | first <= j < first + a + b
        ensures RecordValid(layout, text, j)
      {
        if j >= first + a {
          assert first + a <= j < first + a + b;
        }
      }
    }
  }

  /** One of the source's `for i in range(count)` loops: `count` records read
      one after another from `offset`, the cursor moving on by the record size
      each time, the keys appended in wire order. A failing record fails the
      whole run. */
  method ReadKeys(layout: Layout, text: seq<byte>, offset: nat, ghost first: nat, count: nat)
    returns (r: Option<(nat, seq<KerberosKey>)>)
    requires offset == RecordOffset(layout, first)
    ensures r.Some? <==> RunValid(layout, text, first, count)
    ensures r.Some? ==> r.value.0 == RecordOffset(layout, first + count)
    ensures r.Some? ==> r.value.1 == Run(layout, text, first, count)
  {
    var cursor := offset;
    var keys: seq<KerberosKey> := [];
    for i := 0 to count
      invariant cursor == RecordOffset(layout, first + i)
      invariant RunValid(layout, text, first, i) && keys == Run(layout, text, first, i)
    {
      var record;
      match layout {
        case KeyData => record := KerberosKeyData(text, cursor);
        case KeyDataNew => record := KerberosKeyDataNew(text, cursor);
      }
      if record.None? {
        assert !RecordValid(layout, text, first + i);
        return None;
      }
      RunExtend(layout, text, first, i);
      cursor := record.value.0;
      keys := keys + [record.value.1];
    }
    return Some((cursor, keys));
  }

  /** The counts and salt location a property header announces. Revision 3
      has no older credentials; its count is taken as 0. */
  datatype Header = Header(
    credentialCount: nat,
    oldCredentialCount: nat,
    olderCredentialCount: nat,
    saltMaximumLength: nat,
    saltOffset: nat)

  /** What follows the header, in either revision: the current, old and older
      records, all valid, one blank record, and the salt, which must start
      right after the blank record and must decode as UTF-16. */
  function KeysAfterHeader(layout: Layout, text: seq<byte>, h: Header): Option<KerberosKeys>
  {
    var n, m, k := h.credentialCount, h.oldCredentialCount, h.olderCredentialCount;
    if !(RunValid(layout, text, 0, n) && RunValid(layout, text, n, m) && RunValid(layout, text, n + m, k))
    then None
    else if h.saltOffset != RecordOffset(layout, n + m + k) + RecordSize(layout) then None
    else
      match DecodeUtf16(Slice(text, h.saltOffset, h.saltOffset + h.saltMaximumLength))
      case None => None
      case Some(salt) =>
        Some(KerberosKeys(salt, Run(layout, text, 0, n), Run(layout, text, n, m), Run(layout, text, n + m, k)))
  }

  /** KeysAfterHeader succeeds exactly when all the announced records are
      valid, the salt offset is the one right after them and the blank
      record, and the salt decodes. */
  lemma KeysAfterHeaderAccepts(layout: Layout, text: seq<byte>, h: Header)
    ensures var total := h.credentialCount + h.oldCredentialCount + h.olderCredentialCount;
      KeysAfterHeader(layout, text, h).Some? <==>
        && RunValid(layout, text, 0, total)
        && h.saltOffset == RecordOffset(layout, total) + RecordSize(layout)
        && DecodeUtf16(Slice(text, h.saltOffset, h.saltOffset + h.saltMaximumLength)).Some?
  {
    var n, m, k := h.credentialCount, h.oldCredentialCount, h.olderCredentialCount;
    RunSplit(layout, text, 0, n, m);
    RunSplit(layout, text, 0, n + m, k);
  }

  /** Key i of a run is record first + i. */
  lemma RunAt(layout: Layout, text: seq<byte>, first: nat, count: nat, i: nat)
    requires RunValid(layout, text, first, count) && i < count
    ensures RecordValid(layout, text, first + i)
    ensures Run(layout, text, first, count)[i] == Record(layout, text, first + i)
  {
  }

  /** The 16-byte revision-3 header: revision 3 and flags 0 at 0 and 2, the
      two counts at 4 and 6, the salt's maximum length at 10 and its offset
      at 12. The salt length at 8 is read but not used. */
  function Rev3Header(text: seq<byte>): Option<Header>
  {
    if |text| < 16 || U16At(text, 0) != 3 || U16At(text, 2) != 0 then None
    else Some(Header(U16At(text, 4), U16At(text, 6), 0, U16At(text, 10), U32At(text, 12)))
  }

  /** What a revision-3 property value decodes to. */
  function KerberosRev3(text: seq<byte>): Option<KerberosKeys>
  {
    match Rev3Header(text)
    case None => None
    case Some(h) => KeysAfterHeader(KeyData, text, h)
  }

  /** A revision-3 value decodes exactly when it has revision 3 and flags 0,
      every announced record is valid, the salt starts right after the
      records and the blank record, at 16 + 20 * (n + m) + 20, and the salt
      decodes. */
  lemma KerberosRev3Accepts(text: seq<byte>)
    ensures KerberosRev3(text).Some? <==>
      |text| >= 16 && U16At(text, 0) == 3 && U16At(text, 2) == 0
      && RunValid(KeyData, text, 0, U16At(text, 4) + U16At(text, 6))
      && U32At(text, 12) == 16 + 20 * (U16At(text, 4) + U16At(text, 6)) + 20
      && DecodeUtf16(Slice(text, U32At(text, 12), U32At(text, 12) + U16At(text, 10))).Some?
  {
    if Rev3Header(text).Some? {
      var h := Rev3Header(text).value;
      var total := h.credentialCount + h.oldCredentialCount + h.olderCredentialCount;
      assert total == U16At(text, 4) + U16At(text, 6);
      assert RecordOffset(KeyData, total) + RecordSize(KeyData) == 16 + 20 * total + 20;
      KeysAfterHeaderAccepts(KeyData, text, h);
    }
  }

  /** On success the lists are the announced runs of records, in wire order:
      the current list is records 0 .. n-1 and the old list records
      n .. n+m-1 (so they hold n and m keys, and key i of the old list is
      record n + i, by RunAt); there are no older keys, and the salt is the
      decoded span the header names. */
  lemma KerberosRev3Lists(text: seq<byte>)
    requires KerberosRev3(text).Some?
    ensures |text| >= 16
    ensures var n, m, keys := U16At(text, 4), U16At(text, 6), KerberosRev3(text).value;
      && RunValid(KeyData, text, 0, n) && keys.credentials == Run(KeyData, text, 0, n)
      && RunValid(KeyData, text, n, m) && keys.oldCredentials == Run(KeyData, text, n, m)
      && keys.olderCredentials == []
      && DecodeUtf16(Slice(text, U32At(text, 12), U32At(text, 12) + U16At(text, 10))) == Some(keys.defaultSalt)
  {
    var h := Rev3Header(text).value;
    assert h == Header(U16At(text, 4), U16At(text, 6), 0, U16At(text, 10), U32At(text, 12));
    assert KerberosRev3(text) == KeysAfterHeader(KeyData, text, h);
  }

  /** The revision-3 header fields, read one after another; a short value
      or a wrong revision or flags word fails. */
  method ReadRev3Header(text: seq<byte>) returns (r: Option<Header>)
    ensures r == Rev3Header(text)
  {
    var revision := ReadU16(text, 0);
    if revision != Some(3) { return None; }
    var flags := ReadU16(text, 2);
    if flags != Some(0) { return None; }
    var credentialCount := ReadU16(text, 4);
    if credentialCount.None? { return None; }
    var oldCredentialCount := ReadU16(text, 6);
    if oldCredentialCount.None? { return None; }
    var defaultSaltLength := ReadU16(text, 8);
    if defaultSaltLength.None? { return None; }
    var defaultSaltMaximumLength := ReadU16(text, 10);
    if defaultSaltMaximumLength.None? { return None; }
    var defaultSaltOffset := ReadU32(text, 12);
    if defaultSaltOffset.None? { return None; }
    return Some(Header(credentialCount.value, oldCredentialCount.value, 0,
                       defaultSaltMaximumLength.value, defaultSaltOffset.value));
  }

  /** The part both decoders share once the header is read: the record lists
      in order (revision 3 has no older list), the blank record, the salt
      offset check and the salt. */
  method ReadKeysAfterHeader(layout: Layout, text: seq<byte>, h: Header) returns (r: Option<KerberosKeys>)
    requires layout == KeyData ==> h.olderCredentialCount == 0
    ensures r == KeysAfterHeader(layout, text, h)
  {
    var n, m := h.credentialCount, h.oldCredentialCount;
    var offset := RecordOffset(layout, 0);
    var credentialsRun := ReadKeys(layout, text, offset, 0, n);
    if credentialsRun.None? { return None; }
    var credentials;
    offset, credentials := credentialsRun.value.0, credentialsRun.value.1;
    var oldCredentialsRun := ReadKeys(layout, text, offset, n, m);
    if oldCredentialsRun.None? { return None; }
    var oldCredentials;
    offset, oldCredentials := oldCredentialsRun.value.0, oldCredentialsRun.value.1;
    var olderCredentials := [];
    if layout == KeyDataNew {
      var olderCredentialsRun := ReadKeys(layout, text, offset, n + m, h.olderCredentialCount);
      if olderCredentialsRun.None? { return None; }
      offset, olderCredentials := olderCredentialsRun.value.0, olderCredentialsRun.value.1;
    } else {
      assert RunValid(layout, text, n + m, 0) && Run(layout, text, n + m, 0) == [];
    }
    // the blank record that ends the lists
    offset := offset + RecordSize(layout);
    if offset != h.saltOffset { return None; }
    var salt := DecodeUtf16(Slice(text, offset, offset + h.saltMaximumLength));
    if salt.None? { return None; }
    return Some(KerberosKeys(salt.value, credentials, oldCredentials, olderCredentials));
  }

  /** ParseKerberosPropertyValue: the revision-3 decoder. */
  method ParseKerberosPropertyValue(text: seq<byte>) returns (r: Option<KerberosKeys>)
    ensures r == KerberosRev3(text)
  {
    var header := ReadRev3Header(text);
    if header.None? { return None; }
    r := ReadKeysAfterHeader(KeyData, text, header.value);
  }

  /** The 24-byte revision-4 header: revision 4, flags 0 and no service
      credentials at 0, 2 and 6, the counts at 4, 8 and 10, the salt's
      maximum length at 14 and its offset at 16. The salt length at 12 and
      the default iteration count at 20 are read but not used. */
  function Rev4Header(text: seq<byte>): Option<Header>
  {
    if |text| < 24 || U16At(text, 0) != 4 || U16At(text, 2) != 0 || U16At(text, 6) != 0 then None
    else Some(Header(U16At(text, 4), U16At(text, 8), U16At(text, 10), U16At(text, 14), U32At(text, 16)))
  }

  /** What a revision-4 property value decodes to. */
  function KerberosRev4(text: seq<byte>): Option<KerberosKeys>
  {
    match Rev4Header(text)
    case None => None
    case Some(h) => KeysAfterHeader(KeyDataNew, text, h)
  }

  /** A revision-4 value decodes exactly when it has revision 4, flags 0 and
      no service credentials, every announced record is valid, the salt
      starts at 24 + 24 * (n + m + k) + 24, and the salt decodes. */
  lemma KerberosRev4Accepts(text: seq<byte>)
    ensures KerberosRev4(text).Some? <==>
      |text| >= 24 && U16At(text, 0) == 4 && U16At(text, 2) == 0 && U16At(text, 6) == 0
      && RunValid(KeyDataNew, text, 0, U16At(text, 4) + U16At(text, 8) + U16At(text, 10))
      && U32At(text, 16) == 24 + 24 * (U16At(text, 4) + U16At(text, 8) + U16At(text, 10)) + 24
      && DecodeUtf16(Slice(text, U32At(text, 16), U32At(text, 16) + U16At(text, 14))).Some?
  {
    if Rev4Header(text).Some? {
      var h := Rev4Header(text).value;
      var total := h.credentialCount + h.oldCredentialCount + h.olderCredentialCount;
      assert total == U16At(text, 4) + U16At(text, 8) + U16At(text, 10);
      assert RecordOffset(KeyDataNew, total) + RecordSize(KeyDataNew) == 24 + 24 * total + 24;
      KeysAfterHeaderAccepts(KeyDataNew, text, h);
    }
  }

  /** On success the three lists are the announced runs of records, one
      after another in wire order, and the salt is the decoded span the
      header names. */
  lemma KerberosRev4Lists(text: seq<byte>)
    requires KerberosRev4(text).Some?
    ensures |text| >= 24
    ensures var n, m, k, keys := U16At(text, 4), U16At(text, 8), U16At(text, 10), KerberosRev4(text).value;
      && RunValid(KeyDataNew, text, 0, n) && keys.credentials == Run(KeyDataNew, text, 0, n)
      && RunValid(KeyDataNew, text, n, m) && keys.oldCredentials == Run(KeyDataNew, text, n, m)
      && RunValid(KeyDataNew, text, n + m, k) && keys.olderCredentials == Run(KeyDataNew, text, n + m, k)
      && DecodeUtf16(Slice(text, U32At(text, 16), U32At(text, 16) + U16At(text, 14))) == Some(keys.defaultSalt)
  {
    var h := Rev4Header(text).value;
    assert h == Header(U16At(text, 4), U16At(text, 8), U16At(text, 10), U16At(text, 14), U32At(text, 16));
    assert KerberosRev4(text) == KeysAfterHeader(KeyDataNew, text, h);
  }

  /** The revision-4 header fields, read one after another. */
  method ReadRev4Header(text: seq<byte>) returns (r: Option<Header>)
    ensures r == Rev4Header(text)
  {
    var revision := ReadU16(text, 0);
    if revision != Some(4) { return None; }
    var flags := ReadU16(text, 2);
    if flags != Some(0) { return None; }
    var credentialCount := ReadU16(text, 4);
    if credentialCount.None? { return None; }
    var serviceCredentialCount := ReadU16(text, 6);
    if serviceCredentialCount != Some(0) { return None; }
    var oldCredentialCount := ReadU16(text, 8);
    if oldCredentialCount.None? { return None; }
    var olderCredentialCount := ReadU16(text, 10);
    if olderCredentialCount.None? { return None; }
    var defaultSaltLength := ReadU16(text, 12);
    if defaultSaltLength.None? { return None; }
    var defaultSaltMaximumLength := ReadU16(text, 14);
    if defaultSaltMaximumLength.None? { return None; }
    var defaultSaltOffset := ReadU32(text, 16);
    if defaultSaltOffset.None? { return None; }
    var defaultIterationCount := ReadU32(text, 20);
    if defaultIterationCount.None? { return None; }
    return Some(Header(credentialCount.value, oldCredentialCount.value, olderCredentialCount.value,
                       defaultSaltMaximumLength.value, defaultSaltOffset.value));
  }

  /** ParseKerberosNewerKeysPropertyValue: the revision-4 decoder. */
  method ParseKerberosNewerKeysPropertyValue(text: seq<byte>) returns (r: Option<KerberosKeys>)
    ensures r == KerberosRev4(text)
  {
    var header := ReadRev4Header(text);
    if header.None? { return None; }
    r := ReadKeysAfterHeader(KeyDataNew, text, header.value);
  }
}

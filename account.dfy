/** The hash-extraction methods of dsAccount: getPasswordHashes,
    getPasswordHistory and getSupplementalCredentials.

    Each reads a hexadecimal text field of the account's database record,
    drops its first 16 characters (a header), hex-decodes the rest and
    decrypts it. The two decryption primitives, dsDecryptWithPEK (with the
    database's password encryption key bound in) and dsDecryptSingleHash
    (keyed by the account's RID), are parameters that the model does not
    interpret. */
module Account {
  import opened Wrappers
  import opened Wire
  import opened Hex
  import opened UserProperties

  /** dsDecryptWithPEK and dsDecryptSingleHash. */
  datatype Crypto = Crypto(decryptWithPek: seq<byte> -> seq<byte>, decryptSingleHash: (int, seq<byte>) -> seq<byte>)

  /** The record fields these methods read, and the RID of the account's SID. */
  datatype AccountRecord = AccountRecord(
    lmHash: string,
    ntHash: string,
    lmHistory: string,
    ntHistory: string,
    supplementalCredentials: string,
    rid: int)

  /** Shown for a hash that decrypts to nothing. */
  const NoPassword: string := "NO PASSWORD"

  /** `field[16:]`: the field without its 16-character header. */
  function StripHeader(field: string): (r: string)
    ensures |field| <= 16 ==> r == ""
    ensures |field| > 16 ==> |r| == |field| - 16 && field == field[..16] + r
  {
    Slice(field, 16, |field|)
  }

  /** A decrypted hash as it is reported: in hexadecimal, or the sentinel
      for an empty one. */
  function ShowHash(h: seq<byte>): (s: string)
    ensures s != ""
    ensures s == NoPassword <==> h == []
    ensures s != NoPassword ==> Unhexlify(s) == Some(h)
  {
    HexlifyIsNotSentinel(h);
    UnhexlifyHexlify(h);
    var x := Hexlify(h);
    if x == "" then NoPassword else x
  }

  /** The hash a key-derived field decrypts to. */
  function Decrypted(crypto: Crypto, rid: int, encrypted: seq<byte>): seq<byte>
  {
    crypto.decryptSingleHash(rid, crypto.decryptWithPek(encrypted))
  }

  /** One half of getPasswordHashes: the empty string for a field with
      nothing after its header, otherwise the shown decrypted hash. */
  function CurrentHash(field: string, rid: int, crypto: Crypto): (r: Result<string>)
    ensures r.Ok? <==> Unhexlify(StripHeader(field)).Some?
    ensures r.Err? ==> r.error == HexError
    ensures r == Ok("") <==> StripHeader(field) == ""
    ensures r == Ok(NoPassword) <==>
      StripHeader(field) != "" && Unhexlify(StripHeader(field)).Some?
      && Decrypted(crypto, rid, Unhexlify(StripHeader(field)).value) == []
    ensures r.Ok? && r.value != "" && r.value != NoPassword ==>
      Unhexlify(r.value) == Some(Decrypted(crypto, rid, Unhexlify(StripHeader(field)).value))
  {
    var encrypted :- Need(Unhexlify(StripHeader(field)), HexError);
    if encrypted == [] then Ok("")
    else Ok(ShowHash(Decrypted(crypto, rid, encrypted)))
  }

  /** getPasswordHashes: the LM and NT hashes; both fields are hex-decoded
      before either is decrypted, and a bad one raises. */
  function PasswordHashes(record: AccountRecord, crypto: Crypto): (r: Result<(string, string)>)
    ensures r.Ok? <==>
      Unhexlify(StripHeader(record.lmHash)).Some? && Unhexlify(StripHeader(record.ntHash)).Some?
    ensures r.Err? ==> r.error == HexError
    ensures r.Ok? ==>
      r.value.0 == CurrentHash(record.lmHash, record.rid, crypto).value
      && r.value.1 == CurrentHash(record.ntHash, record.rid, crypto).value
  {
    var lm :- CurrentHash(record.lmHash, record.rid, crypto);
    var nt :- CurrentHash(record.ntHash, record.rid, crypto);
    Ok((lm, nt))
  }

  /** The sentinel is never reported for a field with nothing after its
      header, and the empty string never for one with something. */
  lemma SentinelOnlyForData(field: string, rid: int, crypto: Crypto)
    requires CurrentHash(field, rid, crypto).Ok?
    ensures CurrentHash(field, rid, crypto).value == NoPassword ==> |field| > 16
    ensures CurrentHash(field, rid, crypto).value == "" <==> |field| <= 16
  {
    if |field| > 16 {
      assert StripHeader(field) != "";
    }
  }

  /** History block i: `s[16i:16i+16]`. */
  function Block(s: seq<byte>, i: nat): seq<byte>
  {
    Slice(s, 16 * i, 16 * i + 16)
  }

  /** One history list: an entry per whole 16-byte block, each block
      decrypted on its own. */
  function HistoryOf(s: seq<byte>, rid: int, crypto: Crypto): seq<string>
  {
    seq(|s| / 16, i requires 0 <= i < |s| / 16 => ShowHash(crypto.decryptSingleHash(rid, Block(s, i))))
  }

  /** The blocks a history is cut into are whole: a trailing partial block
      is dropped. */
  lemma BlockIsWhole(s: seq<byte>, i: nat)
    requires i < |s| / 16
    ensures 16 * i + 16 <= |s|
    ensures Block(s, i) == s[16 * i..16 * i + 16] && |Block(s, i)| == 16
  {
    assert 16 * (i + 1) <= 16 * (|s| / 16);
  }

  /** A history has floor(|s|/16) entries; entry i comes from block i alone
      and is the sentinel exactly when that block decrypts to nothing, so
      entries stay aligned with the blocks. */
  lemma HistoryEntries(s: seq<byte>, rid: int, crypto: Crypto)
    ensures |HistoryOf(s, rid, crypto)| == |s| / 16
    ensures |s| < 16 ==> HistoryOf(s, rid, crypto) == []
    ensures forall i :: 0 <= i < |s| / 16 ==>
      (HistoryOf(s, rid, crypto)[i] == NoPassword <==> crypto.decryptSingleHash(rid, s[16 * i..16 * i + 16]) == [])
    ensures forall i :: 0 <= i < |s| / 16 && HistoryOf(s, rid, crypto)[i] != NoPassword ==>
      Unhexlify(HistoryOf(s, rid, crypto)[i]) == Some(crypto.decryptSingleHash(rid, s[16 * i..16 * i + 16]))
  {
    forall i | 0 <= i < |s| / 16
      ensures Block(s, i) == s[16 * i..16 * i + 16]
    {
      BlockIsWhole(s, i);
    }
  }

  /** The history of a concatenation is the concatenation of the histories
      when the first part is whole blocks. */
  lemma HistoryAppend(s: seq<byte>, t: seq<byte>, rid: int, crypto: Crypto)
    requires |s| % 16 == 0
    ensures HistoryOf(s + t, rid, crypto) == HistoryOf(s, rid, crypto) + HistoryOf(t, rid, crypto)
  {
    var n := |s| / 16;
    assert |s| == 16 * n;
    assert (|s| + |t|) / 16 == n + |t| / 16;
    var h, hs, ht := HistoryOf(s + t, rid, crypto), HistoryOf(s, rid, crypto), HistoryOf(t, rid, crypto);
    forall i | 0 <= i < |h|
      ensures h[i] == (hs + ht)[i]
    {
      if i < n {
        BlockIsWhole(s, i);
        BlockIsWhole(s + t, i);
        assert Block(s + t, i) == Block(s, i);
      } else {
        BlockIsWhole(t, i - n);
        BlockIsWhole(s + t, i);
        assert 16 * i == |s| + 16 * (i - n);
        assert Block(s + t, i) == Block(t, i - n);
      }
    }
  }

  /** The loop of getPasswordHistory over one decrypted history. */
  method DecryptHistory(s: seq<byte>, rid: int, crypto: Crypto) returns (history: seq<string>)
    ensures history == HistoryOf(s, rid, crypto)
  {
    history := [];
    if s != [] {
      for i := 0 to |s| / 16
        invariant |history| == i
        invariant forall j :: 0 <= j < i ==> history[j] == HistoryOf(s, rid, crypto)[j]
      {
        var block := Slice(s, i * 16, (i + 1) * 16);
        assert i * 16 == 16 * i && (i + 1) * 16 == 16 * i + 16;
        assert block == Block(s, i);
        var hash := crypto.decryptSingleHash(rid, block);
        assert HistoryOf(s, rid, crypto)[i] == ShowHash(hash);
        assert hash == [] || Hexlify(hash) == ShowHash(hash);
        if hash == [] {
          history := history + [NoPassword];
        } else {
          history := history + [Hexlify(hash)];
        }
      }
    }
  }

  /** What getPasswordHistory returns: both fields are hex-decoded, then
      both decrypted, then cut into blocks. */
  function PasswordHistoryOf(record: AccountRecord, crypto: Crypto): (r: Result<(seq<string>, seq<string>)>)
    ensures r.Ok? <==>
      Unhexlify(StripHeader(record.lmHistory)).Some? && Unhexlify(StripHeader(record.ntHistory)).Some?
    ensures r.Err? ==> r.error == HexError
    ensures r.Ok? ==>
      && r.value.0 == HistoryOf(crypto.decryptWithPek(Unhexlify(StripHeader(record.lmHistory)).value), record.rid, crypto)
      && r.value.1 == HistoryOf(crypto.decryptWithPek(Unhexlify(StripHeader(record.ntHistory)).value), record.rid, crypto)
  {
    var lm :- Need(Unhexlify(StripHeader(record.lmHistory)), HexError);
    var nt :- Need(Unhexlify(StripHeader(record.ntHistory)), HexError);
    Ok((HistoryOf(crypto.decryptWithPek(lm), record.rid, crypto), HistoryOf(crypto.decryptWithPek(nt), record.rid, crypto)))
  }

  /** getPasswordHistory. */
  method PasswordHistory(record: AccountRecord, crypto: Crypto) returns (r: Result<(seq<string>, seq<string>)>)
    ensures r == PasswordHistoryOf(record, crypto)
  {
    var encryptedLm := Unhexlify(StripHeader(record.lmHistory));
    if encryptedLm.None? { return Err(HexError); }
    var encryptedNt := Unhexlify(StripHeader(record.ntHistory));
    if encryptedNt.None? { return Err(HexError); }
    var lm := crypto.decryptWithPek(encryptedLm.value);
    var nt := crypto.decryptWithPek(encryptedNt.value);
    var lmHistory := DecryptHistory(lm, record.rid, crypto);
    var ntHistory := DecryptHistory(nt, record.rid, crypto);
    return Ok((lmHistory, ntHistory));
  }

  /** What getSupplementalCredentials returns: nothing for an empty field,
      otherwise the container parsed from the decrypted field. */
  function SupplementalCredentialsOf(record: AccountRecord, crypto: Crypto): (r: Result<Option<Credentials>>)
    ensures r == Ok(None) <==> record.supplementalCredentials == ""
    ensures record.supplementalCredentials != "" ==>
      (r.Ok? <==>
        Unhexlify(StripHeader(record.supplementalCredentials)).Some?
        && CredentialsOf(crypto.decryptWithPek(Unhexlify(StripHeader(record.supplementalCredentials)).value)).Ok?)
    ensures r.Ok? && r.value.Some? ==>
      r.value.value == CredentialsOf(crypto.decryptWithPek(Unhexlify(StripHeader(record.supplementalCredentials)).value)).value
    ensures Unhexlify(StripHeader(record.supplementalCredentials)).None? && record.supplementalCredentials != "" ==>
      r == Err(HexError)
  {
    if record.supplementalCredentials == "" then Ok(None)
    else
      var encrypted :- Need(Unhexlify(StripHeader(record.supplementalCredentials)), HexError);
      var credentials :- CredentialsOf(crypto.decryptWithPek(encrypted));
      Ok(Some(credentials))
  }

  /** getSupplementalCredentials: a fresh dsSupplCredentials for a field
      that is not empty. */
  method GetSupplementalCredentials(record: AccountRecord, crypto: Crypto) returns (r: Result<Option<SupplCredentials>>)
    ensures r.Ok? <==> SupplementalCredentialsOf(record, crypto).Ok?
    ensures r.Ok? ==> (r.value.None? <==> record.supplementalCredentials == "")
    ensures r.Ok? && r.value.Some? ==>
      fresh(r.value.value) && r.value.value.Fields() == SupplementalCredentialsOf(record, crypto).value.value
    ensures r.Err? ==> r.error == SupplementalCredentialsOf(record, crypto).error
  {
    if record.supplementalCredentials == "" {
      return Ok(None);
    }
    var encrypted := Unhexlify(StripHeader(record.supplementalCredentials));
    if encrypted.None? { return Err(HexError); }
    var credentials := NewSupplCredentials(crypto.decryptWithPek(encrypted.value));
    if credentials.Err? { return Err(credentials.error); }
    return Ok(Some(credentials.value));
  }
}

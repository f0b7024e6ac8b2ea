# Supplemental credentials and account hashes of an NTDS dump tool

This project models the credential-decoding core of `ntds/dsobjects.py`. That file belongs to a tool that reads accounts out of an Active Directory database (`ntds.dit`). The model covers three parts:

- **The supplemental credentials container** (`dsSupplCredentials`). This is the `supplementalCredentials` blob of section 2.2.10 of [MS-SAMR], and it has nested layers:
  - an outer USER_PROPERTIES envelope;
  - a list of named USER_PROPERTY entries, each with a hexadecimal value;
  - the decoders that the property name selects. These handle KERB_STORED_CREDENTIAL (revision 3, records of KERB_KEY_DATA), KERB_STORED_CREDENTIAL_NEW (revision 4, records of KERB_KEY_DATA_NEW) and WDIGEST_CREDENTIALS. The `Packages` list and the cleartext password have no decoder of their own: their values are decoded as UTF-16 text.
- **The hash-extraction methods of `dsAccount`.** These are the current LM/NT hashes, the password histories, and the supplemental credentials of an account. The tool's two decryption primitives are parameters that the model does not interpret.
- **The flag decoders of `dsAccount`.** These turn `samAccountType` into a name (section 2.2.1.9 of [MS-SAMR]) and `userAccountControl` into a list of names (section 2.2.16 of [MS-ADTS]).

The model follows Python 2 semantics:

- **Byte strings and slices.**
  - A byte string is a `seq<byte>`.
  - Slices are clipped at the end of the string (`Wire.Slice`).
  - `struct.unpack` of 'H', 'I' or 'i' fails exactly when its slice is short. Without a byte-order prefix it uses the host's order; the model takes a little-endian host (x86), so it reads little-endian.
  - `ord` of an empty slice fails.
- **Hexadecimal.** `binascii.unhexlify` fails on an odd length or on any character that is not a hexadecimal digit.
- **UTF-16.**
  - `.decode('utf-16')` honours and drops a leading byte-order mark.
  - It fails on an odd length or an unpaired surrogate.
  - It yields UTF-16 code units.
- **`split`.** `unicode.split` keeps empty pieces.
- **Integers.** They are unbounded, and `&` is two's-complement (`Flags.BitAnd`), as for Python's `int`.

The source has two error regimes, and they are kept apart:

- An error that escapes is a `Result` error carrying its kind (`StructError`, `AssertionError`, `HexError` or `UnicodeError`). Such errors come from a failed envelope `assert`, a short read, bad hexadecimal, or a bad UTF-16 name, package list or password. The whole `dsSupplCredentials(text)` construction fails.
- The three sub-decoders catch every exception and return `None`, which is an `Option`. Only their own field is lost.

The imperative code is modelled as methods:

- `dsSupplCredentials` is the class `UserProperties.SupplCredentials`. Its methods update the five fields in place, and hold the property loop (`ParseProperties`).
- The sub-decoders never touch `self`, so they are module-level methods that return values. The key-record loops are `Kerberos.ReadKeys` and the WDigest hash loop is `WDigest.ParseWDigestPropertyValue`.
- The history loop is `Account.DecryptHistory` and the flag appends are `Flags.GetUserAccountControl`. Neither touches a class.
- Each method is proved equal to a specification function, for example `Envelope`, `Walk`, `KerberosRev3`, `WDigestHashesOf`, `HistoryOf` or `AccountControlNames`.
- The lemmas then state the promised properties about those functions.

Files:

| file | module | contents |
|---|---|---|
| wrappers.dfy | Wrappers | `Option`, `Result` and the error kinds |
| wire.dfy | Wire | bytes, Python slices, the little-endian readers |
| hex.dfy | Hex | `unhexlify`, `hexlify` |
| utf16.dfy | Utf16 | `decode('utf-16')`, `split`, `join` |
| kerberos.dfy | Kerberos | key records and the two Kerberos decoders |
| wdigest.dfy | WDigest | the WDigest decoder |
| user_properties.dfy | UserProperties | the envelope, one property, the `SupplCredentials` class |
| user_properties_facts.dfy | UserPropertiesFacts | what the container parser accepts and which bytes it ignores |
| account.dfy | Account | `getPasswordHashes`, `getPasswordHistory`, `getSupplementalCredentials` |
| flags.dfy | Flags | `getSAMAccountType`, `getUserAccountControl` |

Behaviours of the code that a reader might not expect, all modelled as the code has them:

- The account fields lose 16 hexadecimal characters (`[16:]`, 8 bytes) before `unhexlify` (`Account.StripHeader`).
- `Packages` keeps the empty piece after the final NUL (`PackagesKeepTrailingEmpty`).
- A key span running past the end of a Kerberos value is clipped by the slice rather than rejected (`KeySpanClipped`).
- WDigest hashes running past the end of a short value are clipped the same way, so a value with a valid 16-byte header always yields 29 hashes, some of them short (`WDigestEntries`).
- Of the two leading WDigest bytes only the second is checked; the first is never looked at (`WDigestIgnoresReserved1`).
- The reserved halfword of every property and the trailing byte of the container are never checked (`PropertyIgnoresReserved`, `IgnoresLastByte`).
- A bad hexadecimal value, or a bad UTF-16 package list or password, inside one property is not caught: it makes the whole container fail, unlike a failure inside the three sub-decoders (`ApplyPropertyEffect`).

## Model

| member | source | states |
|---|---|---|
| Wire.Slice | ntds/dsobjects.py:463 | A Python slice `s[lo:hi]`: the part of lo .. hi-1 inside `s`, element by element, and the exact sub-sequence when `hi` is in range |
| Wire.ReadByte | ntds/dsobjects.py:482 | `ord(s[o:o+1])` succeeds exactly when `o` is inside the string, and gives that byte |
| Wire.ReadU16 | ntds/dsobjects.py:457 | `unpack('H', …)` succeeds exactly when two bytes remain, and gives their little-endian value |
| Wire.ReadU32 | ntds/dsobjects.py:430 | `unpack('I', …)` succeeds exactly when four bytes remain, and gives their little-endian value |
| Wire.ReadI32 | ntds/dsobjects.py:597 | `unpack('i', …)` succeeds exactly when four bytes remain, and gives the two's-complement reading |
| Wire.I32At | ntds/dsobjects.py:620 | The signed key type lies in [-2^31, 2^31), equals the unsigned value when non-negative, and is 2^32 less when negative |
| Wire.U16RoundTrip | ntds/dsobjects.py:457 | Reading a halfword gives back the value whose two little-endian bytes sit there, whatever surrounds them |
| Wire.U32RoundTrip | ntds/dsobjects.py:430 | Reading a word gives back the value whose four little-endian bytes sit there |
| Wire.I32RoundTrip | ntds/dsobjects.py:597 | The signed reading gives back every 32-bit signed value `pack('i', x)` wrote |
| Hex.Unhexlify | ntds/dsobjects.py:466 | `unhexlify` succeeds exactly on an even number of hexadecimal digits; it yields half as many bytes, byte i being the value of digits 2i and 2i+1 |
| Hex.Hexlify | ntds/dsobjects.py:195 | `hexlify` writes two hexadecimal digits per byte |
| Hex.UnhexlifyHexlify | ntds/dsobjects.py:195 | `unhexlify(hexlify(b)) == b` for every byte string |
| Hex.HexlifyIsNotSentinel | ntds/dsobjects.py:195-197 | No hexadecimal string is the sentinel "NO PASSWORD", so a real hash can never be mistaken for it |
| Utf16.DecodeUtf16Cases | ntds/dsobjects.py:463 | `.decode('utf-16')` fails on an odd length; a leading FF FE or FE FF mark selects little- or big-endian order and is dropped, and otherwise the order is little-endian; the result is the code units when every surrogate is paired, and a failure otherwise |
| Utf16.Split | ntds/dsobjects.py:472 | `split("\x00")` yields at least one piece, and no piece holds the separator |
| Utf16.DecodeEncodeUtf16 | ntds/dsobjects.py:472-474 | Decoding a UTF-16LE encoding gives the text back, for text with paired surrogates that does not start with a unit read as a byte-order mark |
| Utf16.JoinSplit | ntds/dsobjects.py:472 | Joining the pieces of `split("\x00")` with NUL restores the text |
| Utf16.SplitCount | ntds/dsobjects.py:472 | `split` yields one piece more than there are separators, so no piece, empty or not, is dropped |
| Utf16.SplitJoin | ntds/dsobjects.py:472 | Splitting a join of separator-free pieces gives exactly those pieces |
| Kerberos.KeySpanClipped | ntds/dsobjects.py:603 | The key is `text[KeyOffset:KeyOffset+KeyLength]`: the whole span when it is inside the value, its clipped prefix when it runs past the end, empty when it starts past the end |
| Kerberos.KerberosKeyData | ntds/dsobjects.py:608-629 | A KERB_KEY_DATA record is read exactly when its 20 bytes are present and its three reserved fields are zero; the cursor moves by 20 whatever the key length, and the key is the record's signed type and its clipped span |
| Kerberos.KerberosKeyDataNew | ntds/dsobjects.py:583-606 | A KERB_KEY_DATA_NEW record is read exactly when its 24 bytes are present and its reserved fields are zero; the cursor moves by 24, and the key carries the iteration count, the signed type and the clipped span |
| Kerberos.RunSplit | ntds/dsobjects.py:532-540 | Reading a+b records in one run is reading a records and then b more from where they end |
| Kerberos.ReadKeys | ntds/dsobjects.py:569-574 | One `for i in range(count)` loop of records: succeeds exactly when every record is valid, ends `count` records later, and returns the records in wire order |
| Kerberos.KeysAfterHeaderAccepts | ntds/dsobjects.py:532-544 | The part after a header succeeds exactly when all announced records are valid, the salt offset is the one right after them and the blank record, and the salt decodes |
| Kerberos.ReadRev3Header | ntds/dsobjects.py:553-568 | The revision-3 header read field by field equals the closed-form header, failing on a short value or a wrong revision or flags |
| Kerberos.ReadKeysAfterHeader | ntds/dsobjects.py:569-578 | The record loops, the blank record, the salt-offset assertion and the salt decode together compute the specified lists and salt |
| Kerberos.ParseKerberosPropertyValue | ntds/dsobjects.py:549-581 | The revision-3 decoder returns exactly the value the closed-form decoder `KerberosRev3` gives, `None` included |
| Kerberos.KerberosRev3Accepts | ntds/dsobjects.py:549-581 | A revision-3 value decodes exactly when revision is 3, flags are 0, all n+m records are valid, DefaultSaltOffset is 16 + 20(n+m) + 20, and the salt decodes |
| Kerberos.KerberosRev3Lists | ntds/dsobjects.py:569-578 | On success the current and old lists are records 0..n-1 and n..n+m-1, in wire order; there are no older keys; the salt is the decoded span the header names |
| Kerberos.ReadRev4Header | ntds/dsobjects.py:509-531 | The revision-4 header read field by field equals the closed-form header, including the service-credential count of 0 |
| Kerberos.ParseKerberosNewerKeysPropertyValue | ntds/dsobjects.py:505-547 | The revision-4 decoder returns exactly `KerberosRev4`, `None` included |
| Kerberos.KerberosRev4Accepts | ntds/dsobjects.py:505-547 | A revision-4 value decodes exactly when revision is 4, flags and service-credential count are 0, all n+m+k records are valid, DefaultSaltOffset is 24 + 24(n+m+k) + 24, and the salt decodes |
| Kerberos.KerberosRev4Lists | ntds/dsobjects.py:532-544 | On success the three lists are the three consecutive runs of n, m and k records, in wire order, and the salt is the decoded span the header names |
| WDigest.ParseWDigestPropertyValue | ntds/dsobjects.py:479-503 | The decoder with its header loop and hash loop returns exactly `WDigestHashesOf`; every failure becomes `None` |
| WDigest.WDigestAccepts | ntds/dsobjects.py:479-496 | A value decodes exactly when it has 16 header bytes, byte 1 is 0, the version is 1, the hash count is 29 and the three reserved words at 4, 8 and 12 are 0 |
| WDigest.WDigestEntries | ntds/dsobjects.py:497-501 | On success there are exactly 29 hashes; hash i is `text[16+16i:32+16i]`, the full 16-byte span whenever the value has 480 bytes |
| WDigest.WDigestIgnoresReserved1 | ntds/dsobjects.py:482 | Byte 0 is never validated: changing it does not change the result |
| UserProperties.ReadPropertyHeader | ntds/dsobjects.py:457-464 | The three halfwords, the name slice and its UTF-16 decode, read in order, give the closed-form header or its error |
| UserProperties.ReadEnvelopeHeader | ntds/dsobjects.py:429-448 | The envelope fields read in order give the property count, or the error (short read or failed assertion) that escapes first |
| UserProperties.SupplCredentials.constructor | ntds/dsobjects.py:399-405 | A new object has all five fields `None` and keeps the blob |
| UserProperties.SupplCredentials.StoreValue | ntds/dsobjects.py:465-476 | A recognised name's value is hex-decoded and decoded, and only its one field is set to the result; an unknown name changes nothing; on failure no field changes |
| UserProperties.SupplCredentials.ParseUserProperty | ntds/dsobjects.py:456-477 | Parsing one property returns where the next starts and leaves the fields as `PropertyAt` specifies; on failure it returns that error and no field changes |
| UserProperties.SupplCredentials.ParseNextProperty | ntds/dsobjects.py:449-450 | One loop pass is one step of `Walk`, which specifies the loop |
| UserProperties.SupplCredentials.ParseProperties | ntds/dsobjects.py:449-450 | The loop over `PropertyCount` properties from 112 succeeds exactly when `Walk` does, ending where it ends with the fields it computes |
| UserProperties.SupplCredentials.ParseUserProperties | ntds/dsobjects.py:428-454 | The whole container parse succeeds exactly when `Envelope` does, and leaves the fields it computes; otherwise it returns `Envelope`'s error |
| UserProperties.NewSupplCredentials | ntds/dsobjects.py:399-406 | `dsSupplCredentials(text)` gives a fresh object holding `CredentialsOf(text)`, or the error that escapes its constructor |
| UserPropertiesFacts.ApplyPropertyEffect | ntds/dsobjects.py:465-476 | A property changes at most the field its name selects. An unknown name changes nothing and cannot fail. It fails with HexError exactly when a recognised value is not hexadecimal, and with UnicodeError exactly when a package list or password is not UTF-16 |
| UserPropertiesFacts.ApplyPropertyOverwrites | ntds/dsobjects.py:465-476 | A repeated name overwrites: the result does not depend on what its field held before |
| UserPropertiesFacts.PackagesSplit | ntds/dsobjects.py:471-472 | `Packages` is the decoded text split at NUL: one piece per NUL plus one, no piece holding NUL, joined back equal to the text |
| UserPropertiesFacts.StoredValueOf | ntds/dsobjects.py:466-474 | The value a writer stores for a text hex-decodes to its UTF-16LE encoding |
| UserPropertiesFacts.PackagesOfText | ntds/dsobjects.py:471-472 | A text stored as `Packages` reads back as its split at NUL |
| UserPropertiesFacts.PackagesRoundTrip | ntds/dsobjects.py:471-472 | A list of NUL-free package names, stored as the property stores it, reads back as exactly that list, empty pieces included |
| UserPropertiesFacts.PackagesKeepTrailingEmpty | ntds/dsobjects.py:472 | The list "KerberosV5\0Negotiate\0NTLM\0" gives four pieces, the last one empty |
| UserPropertiesFacts.CleartextRoundTrip | ntds/dsobjects.py:473-474 | A stored `Primary:CLEARTEXT` password reads back verbatim |
| UserPropertiesFacts.PropertyAtAdvances | ntds/dsobjects.py:456-477 | A property needs its six header bytes and a UTF-16 name (StructError and UnicodeError otherwise). On success the cursor moves by exactly 6 + NameLength + ValueLength, ValueLength counting hexadecimal characters, and the fields change as the name's decoder says |
| UserPropertiesFacts.PropertyIgnoresReserved | ntds/dsobjects.py:461-462 | The reserved halfword of a property is never checked: any value there gives the same parse |
| UserPropertiesFacts.ReservedHeaderAgree | ntds/dsobjects.py:457-464 | The name and value of a property do not depend on its reserved halfword |
| UserPropertiesFacts.HeaderAgree | ntds/dsobjects.py:457-464 | A property header reads nothing past where its property ends |
| UserPropertiesFacts.PropertyAtAgree | ntds/dsobjects.py:456-477 | A property parse reads nothing past where it ends |
| UserPropertiesFacts.EnvelopeAccepts | ntds/dsobjects.py:428-454 | The container is accepted exactly when the word at 0 is 0, the length is the word at 4 plus 13, the halfwords at 8 and 10 are 0, the signature at 108 is 0x50, and `PropertyCount` properties from 112 end at exactly the last byte; the fields are those the properties set |
| UserPropertiesFacts.EnvelopeHeaderAgree | ntds/dsobjects.py:429-448 | The fixed part reads nothing from byte 112 on |
| UserPropertiesFacts.IgnoresLastByte | ntds/dsobjects.py:451-454 | The trailing byte is never validated: an accepted blob is accepted, with the same fields, whatever its last byte holds |
| Account.StripHeader | ntds/dsobjects.py:191-192 | `field[16:]` drops 16 characters: empty for a field of at most 16, otherwise the rest |
| Account.ShowHash | ntds/dsobjects.py:195-197 | A decrypted hash is shown in hexadecimal, which hex-decodes back to it; the result is "NO PASSWORD" exactly when the hash is empty, and is never empty |
| Account.CurrentHash | ntds/dsobjects.py:191-202 | One hash: fails with HexError exactly when the stripped field is not hexadecimal; is "" exactly when nothing follows the header; is "NO PASSWORD" exactly when the decryption is empty; otherwise it hex-decodes to the decrypted hash |
| Account.PasswordHashes | ntds/dsobjects.py:188-203 | getPasswordHashes succeeds exactly when both stripped fields are hexadecimal, and returns the LM and NT `CurrentHash` |
| Account.SentinelOnlyForData | ntds/dsobjects.py:193-202 | "NO PASSWORD" is never reported for a field with nothing after its header; "" is reported exactly for such a field |
| Account.BlockIsWhole | ntds/dsobjects.py:212-214 | Every history block `s[16i:16i+16]` below floor(len/16) is a whole 16 bytes; a trailing partial block is dropped |
| Account.HistoryEntries | ntds/dsobjects.py:210-225 | A history has floor(len/16) entries and none for fewer than 16 bytes. Entry i comes from block i alone: it is "NO PASSWORD" exactly when that block decrypts to nothing, and otherwise the hexadecimal of the decryption |
| Account.HistoryAppend | ntds/dsobjects.py:212-225 | The history of whole blocks followed by more bytes is the concatenation of the two histories, so entries stay aligned with blocks |
| Account.DecryptHistory | ntds/dsobjects.py:210-225 | The history loop, with its `!= ""` guard, computes `HistoryOf` |
| Account.PasswordHistoryOf | ntds/dsobjects.py:205-226 | getPasswordHistory succeeds exactly when both stripped fields are hexadecimal, and fails with HexError otherwise |
| Account.PasswordHistory | ntds/dsobjects.py:205-226 | The imperative getPasswordHistory returns exactly `PasswordHistoryOf` |
| Account.SupplementalCredentialsOf | ntds/dsobjects.py:228-235 | The result is `None` exactly when the raw field is empty. Otherwise it succeeds exactly when the stripped field is hexadecimal and its decryption parses as a container, and holds that container's fields; bad hexadecimal is HexError |
| Account.GetSupplementalCredentials | ntds/dsobjects.py:228-235 | The method returns a fresh `SupplCredentials` holding `SupplementalCredentialsOf`, `None` exactly for an empty field, or the same error |
| Flags.BitAnd | ntds/dsobjects.py:239 | Python's `x & m` for a non-negative mask is at most m |
| Flags.HasFlagsIsBitAnd | ntds/dsobjects.py:239 | The bitwise test `HasFlags(x, m)` is exactly the source's `x & m == m` |
| Flags.Lacks | ntds/dsobjects.py:239-256 | A value lacking one bit of a mask fails that mask's test |
| Flags.HasFlagsSelf | ntds/dsobjects.py:239-256 | Every value passes the test for its own mask |
| Flags.SingleBit | ntds/dsobjects.py:263-286 | For a single-bit mask the test is a test of that bit |
| Flags.MinusOneHasFlags | ntds/dsobjects.py:238 | The unset value -1 passes every test, which is why both decoders check it first |
| Flags.FirstMatchAt | ntds/dsobjects.py:239-256 | The if-chain returns the name of entry i when i is the first entry whose mask the value has |
| Flags.FirstMatchNone | ntds/dsobjects.py:239-256 | The if-chain returns nothing exactly when the value has none of the masks |
| Flags.SamAccountTypeName | ntds/dsobjects.py:237-258 | getSAMAccountType gives "" for -1, and otherwise the first mask in source order that the value has, or nothing |
| Flags.ZeroHasNoFlags | ntds/dsobjects.py:239-256 | 0 passes a test exactly when the mask is 0 |
| Flags.SamDomainObject | ntds/dsobjects.py:237-258 | SAM_DOMAIN_OBJECT (0) passes no test, so it gets no name |
| Flags.SamAccountTypeValues | ntds/dsobjects.py:237-258 | Each of the nine samAccountType values of [MS-SAMR] gets its own name, despite 0x30000001 and 0x30000002 also having the bits of 0x30000000, and 0 gets none |
| Flags.MasksAreBits | ntds/dsobjects.py:262-285 | Each of the twelve masks is the single bit of section 2.2.16 of [MS-ADTS] it stands for |
| Flags.MaskIsBit | ntds/dsobjects.py:262-285 | Entry i's mask is 2 to the power of its bit |
| Flags.ReportFlag | ntds/dsobjects.py:262-285 | One test-and-append of getUserAccountControl extends the names of the first k entries to the first k+1 |
| Flags.GetUserAccountControl | ntds/dsobjects.py:260-287 | getUserAccountControl returns exactly `AccountControlNames` |
| Flags.NamesDistinct | ntds/dsobjects.py:262-285 | The twelve reported names are distinct |
| Flags.FlagNamesMembership | ntds/dsobjects.py:262-285 | Among the first n tests, entry i's name is reported exactly when i < n and its bit is set; at most n names are reported |
| Flags.AccountControlMembership | ntds/dsobjects.py:260-287 | A flag's name is in the result exactly when the value is not -1 and the flag's bit is set; there are at most twelve names |

## Left out

- The `Print` methods, `dump`, and the `print(Name)` for an unknown property name are output only. An unknown name changes no field.
- `dsDecryptWithPEK` and `dsDecryptSingleHash` (RC4 and DES, with the database's password encryption key) live in a module that is not part of this model. They are the uninterpreted functions of `Account.Crypto`, and the RID of the account's SID is an input.
- The database record and the constructors of `dsObject`, `dsAccount`, `dsUser`, `dsComputer`, `dsGroup` and `dsFVERecoveryInformation` are left out. So are their timestamp, GUID and SID helpers. The record fields the hash methods read are the inputs in `Account.AccountRecord`.
- `getChilds`, `getAncestors`, `getMemberOf`, `getMembers` and `getRecoveryInformations` query the database's link tables and are left out.
- Account.GetSupplementalCredentials does not model the write of the raw field into `self.SupplementalCredentials`. That is a cache of a record field, and the record store is out of scope.
- The account methods are functions and methods over an `AccountRecord` value rather than a class, because the only state they touch is that cache.
- UserProperties.SupplCredentials.ParseUserProperties states the fields only on success. On failure the exception escapes the constructor and the half-filled object is never seen.
- UserProperties.SupplCredentials.ParseProperties states the fields only on success, for the same reason. On failure it leaves the fields that the properties before the failing one set, and that state is not stated.
- Decoded UTF-16 text is kept as 16-bit code units. Code points, a wide Python build and Python 3 string semantics are not modelled. `len(…)/16` is floor division, as in Python 2.
- The Print methods read `dsKerberosNewKeys.Credentials` and the other lists only for display. The data holders `dsKerberosKey` and `dsKerberosNewKeys` are the datatypes `Kerberos.KerberosKey` and `Kerberos.KerberosKeys`.
- There is no Kerberos record encoder, so a "decode then re-encode" law for key records is not stated. What the decoder accepts and returns is stated exactly instead (`KerberosRev3Accepts`, `KerberosRev3Lists` and the revision-4 pair).

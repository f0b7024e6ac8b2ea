/** The supplemental credentials container (USER_PROPERTIES, section
    2.2.10.1 of [MS-SAMR]) and its properties (USER_PROPERTY, section
    2.2.10.2).

    The container is a fixed 112-byte envelope followed by `PropertyCount`
    properties and one trailing byte. Each property is a name length, a
    value length, a reserved halfword, a UTF-16 name and a value written as
    ASCII hexadecimal. A failed envelope check, a short read, a bad
    hexadecimal value or a bad UTF-16 name, package list or password escapes
    the parser, and the whole container fails; a sub-decoder failure only
    sets its own field to `None`. */
module UserProperties {
  import opened Wrappers
  import opened Wire
  import opened Hex
  import opened Utf16
  import opened Kerberos
  import opened WDigest

  /** The five fields a parse fills in. */
  datatype Credentials = Credentials(
    kerberosNewerKeys: Option<KerberosKeys>,
    kerberosKeys: Option<KerberosKeys>,
    wdigestHashes: Option<seq<seq<byte>>>,
    packages: Option<seq<Text16>>,
    password: Option<Text16>)

  const NoCredentials := Credentials(None, None, None, None, None)

  /** The property names the parser recognises, matched exactly. */
  datatype PropertyKind = KerberosNewerKeysProperty | KerberosProperty | WDigestProperty
                        | PackagesProperty | CleartextProperty | OtherProperty

  function KindOf(name: Text16): PropertyKind
  {
    if name == Wide("Primary:Kerberos-Newer-Keys") then KerberosNewerKeysProperty
    else if name == Wide("Primary:Kerberos") then KerberosProperty
    else if name == Wide("Primary:WDigest") then WDigestProperty
    else if name == Wide("Packages") then PackagesProperty
    else if name == Wide("Primary:CLEARTEXT") then CleartextProperty
    else OtherProperty
  }

  /** The property header at `o`: name length, value length, and a reserved
      halfword that is read but never checked. */
  predicate HasPropertyHeader(text: seq<byte>, o: nat)
  {
    o + 6 <= |text|
  }

  function NameLengthAt(text: seq<byte>, o: nat): u16
    requires HasPropertyHeader(text, o)
  {
    U16At(text, o)
  }

  /** The value length counts the hexadecimal characters of the value. */
  function ValueLengthAt(text: seq<byte>, o: nat): u16
    requires HasPropertyHeader(text, o)
  {
    U16At(text, o + 2)
  }

  function NameBytesAt(text: seq<byte>, o: nat): seq<byte>
    requires HasPropertyHeader(text, o)
  {
    Slice(text, o + 6, o + 6 + NameLengthAt(text, o))
  }

  function ValueAt(text: seq<byte>, o: nat): seq<byte>
    requires HasPropertyHeader(text, o)
  {
    var valueStart := o + 6 + NameLengthAt(text, o);
    Slice(text, valueStart, valueStart + ValueLengthAt(text, o))
  }

  /** Where the next property starts. */
  function NextAt(text: seq<byte>, o: nat): nat
    requires HasPropertyHeader(text, o)
  {
    o + 6 + NameLengthAt(text, o) + ValueLengthAt(text, o)
  }

  /** What a property of the given kind does to the fields: the value is
      hex-decoded (except for an unrecognised name, whose value is never
      looked at) and handed to the matching decoder, whose result replaces
      its one field. */
  function ApplyProperty(kind: PropertyKind, value: seq<byte>, c: Credentials): Result<Credentials>
  {
    if kind == OtherProperty then Ok(c)
    else
      var decoded :- Need(Unhexlify(Latin1(value)), HexError);
      match kind
      case KerberosNewerKeysProperty => Ok(c.(kerberosNewerKeys := KerberosRev4(decoded)))
      case KerberosProperty => Ok(c.(kerberosKeys := KerberosRev3(decoded)))
      case WDigestProperty => Ok(c.(wdigestHashes := WDigestHashesOf(decoded)))
      case PackagesProperty =>
        var s :- Need(DecodeUtf16(decoded), UnicodeError);
        Ok(c.(packages := Some(Split(s, 0))))
      case CleartextProperty =>
        var s :- Need(DecodeUtf16(decoded), UnicodeError);
        Ok(c.(password := Some(s)))
  }

  /** The header and name of the property at `o`: its name, its value
      bytes, and where the next property starts. */
  function PropertyHeaderAt(text: seq<byte>, o: nat): Result<(Text16, seq<byte>, nat)>
  {
    if !HasPropertyHeader(text, o) then Err(StructError)
    else
      var name :- Need(DecodeUtf16(NameBytesAt(text, o)), UnicodeError);
      Ok((name, ValueAt(text, o), NextAt(text, o)))
  }

  /** One property at `o`: the cursor after it and the updated fields. */
  function PropertyAt(text: seq<byte>, o: nat, c: Credentials): Result<(nat, Credentials)>
  {
    var (name, value, next) :- PropertyHeaderAt(text, o);
    var c' :- ApplyProperty(KindOf(name), value, c);
    Ok((next, c'))
  }

  /** `count` properties one after another from `o`. */
  function Walk(text: seq<byte>, o: nat, count: nat, c: Credentials): Result<(nat, Credentials)>
    decreases count, 1
  {
    if count == 0 then Ok((o, c)) else WalkFrom(text, o, count, c)
  }

  /** The first of `count` properties at `o`, then the rest. */
  function WalkFrom(text: seq<byte>, o: nat, count: nat, c: Credentials): Result<(nat, Credentials)>
    requires count > 0
    decreases count, 0
  {
    var (next, c') :- PropertyAt(text, o, c);
    Walk(text, next, count - 1, c')
  }

  /** One step of Walk. */
  lemma WalkStep(text: seq<byte>, o: nat, count: nat, c: Credentials)
    requires count > 0
    ensures var p := PropertyAt(text, o, c);
      Walk(text, o, count, c) == if p.Err? then Err(p.error) else Walk(text, p.value.0, count - 1, p.value.1)
  {
  }

  /** The fixed part of the envelope: reserved word 0 at 0, the length at 4
      (the blob is 13 bytes longer than it says), reserved halfwords 0 at 8
      and 10, 96 skipped bytes, the signature 0x50 at 108, and the property
      count at 110, which is the result. The halfwords at 8 and 10 are always
      present once the length check has passed, so reading them cannot
      fail. */
  function EnvelopeHeader(text: seq<byte>): Result<u16>
  {
    if |text| < 4 then Err(StructError)
    else if U32At(text, 0) != 0 then Err(AssertionError)
    else if |text| < 8 then Err(StructError)
    else if |text| != U32At(text, 4) + 3 * 4 + 1 then Err(AssertionError)
    else if U16At(text, 8) != 0 || U16At(text, 10) != 0 then Err(AssertionError)
    else if |text| < 110 then Err(StructError)
    else if U16At(text, 108) != 0x50 then Err(AssertionError)
    else if |text| < 112 then Err(StructError)
    else Ok(U16At(text, 110))
  }

  /** The whole container, starting from fields `c`: the fixed part, the
      properties from 112 on, and exactly one trailing byte after them. */
  function Envelope(text: seq<byte>, c: Credentials): Result<Credentials>
  {
    var count :- EnvelopeHeader(text);
    var (last, c') :- Walk(text, 112, count, c);
    if last != |text| - 1 then Err(AssertionError) else Ok(c')
  }

  /** Envelope once the fixed part has been read. */
  lemma EnvelopeUnfold(text: seq<byte>, c: Credentials)
    requires EnvelopeHeader(text).Ok?
    ensures var w := Walk(text, 112, EnvelopeHeader(text).value, c);
      Envelope(text, c) == if w.Err? then Err(w.error)
                           else if w.value.0 != |text| - 1 then Err(AssertionError)
                           else Ok(w.value.1)
  {
  }

  /** What a decrypted supplemental-credentials blob parses to. */
  function CredentialsOf(text: seq<byte>): Result<Credentials>
  {
    Envelope(text, NoCredentials)
  }

  /** The first half of ParseUserProperty: the three halfwords, and the
      name decoded from the bytes that follow. */
  method ReadPropertyHeader(text: seq<byte>, offset: nat) returns (r: Result<(Text16, seq<byte>, nat)>)
    ensures r == PropertyHeaderAt(text, offset)
  {
    var o: nat := offset;
    var nameLength := ReadU16(text, o);
    if nameLength.None? { return Err(StructError); }
    o := o + 2;
    var valueLength := ReadU16(text, o);
    if valueLength.None? { return Err(StructError); }
    o := o + 2;
    var reserved := ReadU16(text, o);
    if reserved.None? { return Err(StructError); }
    o := o + 2;
    assert HasPropertyHeader(text, offset);
    assert nameLength.value == NameLengthAt(text, offset) && valueLength.value == ValueLengthAt(text, offset);
    var nameBytes := Slice(text, o, o + nameLength.value as int);
    assert nameBytes == NameBytesAt(text, offset);
    var name := DecodeUtf16(nameBytes);
    if name.None? { return Err(UnicodeError); }
    o := o + nameLength.value as int;
    var value := Slice(text, o, o + valueLength.value as int);
    assert value == ValueAt(text, offset);
    return Ok((name.value, value, o + valueLength.value as int));
  }

  /** The fixed part of ParseUserProperties, read field by field. */
  method ReadEnvelopeHeader(text: seq<byte>) returns (r: Result<u16>)
    ensures r == EnvelopeHeader(text)
  {
    var offset: nat := 0;
    var reserved1 := ReadU32(text, offset);
    if reserved1.None? { return Err(StructError); }
    if reserved1.value != 0 { return Err(AssertionError); }
    offset := offset + 4;
    var lengthOfStructure := ReadU32(text, offset);
    if lengthOfStructure.None? { return Err(StructError); }
    if |text| != lengthOfStructure.value as int + 3 * 4 + 1 { return Err(AssertionError); }
    offset := offset + 4;
    var reserved2 := U16At(text, offset);
    if reserved2 != 0 { return Err(AssertionError); }
    offset := offset + 2;
    var reserved3 := U16At(text, offset);
    if reserved3 != 0 { return Err(AssertionError); }
    offset := offset + 2;
    offset := offset + 96; // reserved4
    var propertySignature := ReadU16(text, offset);
    if propertySignature.None? { return Err(StructError); }
    if propertySignature.value != 0x50 { return Err(AssertionError); }
    offset := offset + 2;
    var propertyCount := ReadU16(text, offset);
    if propertyCount.None? { return Err(StructError); }
    return Ok(propertyCount.value);
  }

  /** dsSupplCredentials: the five decoded fields and the blob they came
      from. */
  class SupplCredentials {
    var kerberosNewerKeys: Option<KerberosKeys>
    var kerberosKeys: Option<KerberosKeys>
    var wdigestHashes: Option<seq<seq<byte>>>
    var packages: Option<seq<Text16>>
    var password: Option<Text16>
    var text: seq<byte>

    function Fields(): Credentials
      reads this
    {
      Credentials(kerberosNewerKeys, kerberosKeys, wdigestHashes, packages, password)
    }

    /** The field initialisation of the constructor; the parse that follows
        it is NewSupplCredentials. */
    constructor (text: seq<byte>)
      ensures Fields() == NoCredentials && this.text == text
    {
      kerberosNewerKeys, kerberosKeys, wdigestHashes, packages, password := None, None, None, None, None;
      this.text := text;
    }

    /** The second half of ParseUserProperty: hex-decodes the value of a
        recognised property, runs the decoder its name selects and stores the
        result in that one field. A failure happens before the field is
        assigned. */
    method StoreValue(kind: PropertyKind, value: seq<byte>) returns (r: Result<()>)
      modifies this
      ensures this.text == old(this.text)
      ensures r.Ok? <==> ApplyProperty(kind, value, old(Fields())).Ok?
      ensures r.Ok? ==> Fields() == ApplyProperty(kind, value, old(Fields())).value
      ensures r.Err? ==> r.error == ApplyProperty(kind, value, old(Fields())).error && Fields() == old(Fields())
    {
      if kind == OtherProperty {
        // the name is printed, and nothing else happens
        return Ok(());
      }
      var decoded := Unhexlify(Latin1(value));
      if decoded.None? { return Err(HexError); }
      match kind {
        case KerberosNewerKeysProperty =>
          kerberosNewerKeys := ParseKerberosNewerKeysPropertyValue(decoded.value);
        case KerberosProperty =>
          kerberosKeys := ParseKerberosPropertyValue(decoded.value);
        case WDigestProperty =>
          wdigestHashes := ParseWDigestPropertyValue(decoded.value);
        case PackagesProperty =>
          var s := DecodeUtf16(decoded.value);
          if s.None? { return Err(UnicodeError); }
          packages := Some(Split(s.value, 0));
        case CleartextProperty =>
          var s := DecodeUtf16(decoded.value);
          if s.None? { return Err(UnicodeError); }
          password := Some(s.value);
      }
      return Ok(());
    }

    /** ParseUserProperty: parses the property at `offset`, stores what it
        decodes to, and returns where the next property starts. A failure
        happens before any field is assigned. */
    method ParseUserProperty(text: seq<byte>, offset: nat) returns (r: Result<nat>)
      modifies this
      ensures this.text == old(this.text)
      ensures r.Ok? <==> PropertyAt(text, offset, old(Fields())).Ok?
      ensures r.Ok? ==> r.value == PropertyAt(text, offset, old(Fields())).value.0
      ensures r.Ok? ==> Fields() == PropertyAt(text, offset, old(Fields())).value.1
      ensures r.Err? ==> r.error == PropertyAt(text, offset, old(Fields())).error && Fields() == old(Fields())
    {
      var header := ReadPropertyHeader(text, offset);
      if header.Err? { return Err(header.error); }
      var (name, value, next) := header.value;
      var stored := StoreValue(KindOf(name), value);
      if stored.Err? { return Err(stored.error); }
      return Ok(next);
    }

    /** One pass of the loop of ParseUserProperties, stated as the step of
        Walk it takes: from `offset` with `remaining` properties to go. */
    method ParseNextProperty(text: seq<byte>, offset: nat, ghost remaining: nat) returns (r: Result<nat>)
      requires remaining > 0
      modifies this
      ensures this.text == old(this.text)
      ensures Walk(text, offset, remaining, old(Fields()))
           == if r.Err? then Err(r.error) else Walk(text, r.value, remaining - 1, Fields())
      ensures r.Err? ==> Fields() == old(Fields())
    {
      WalkStep(text, offset, remaining, Fields());
      r := ParseUserProperty(text, offset);
    }

    /** The loop of ParseUserProperties: `count` properties in order from
        112; on success, where the last one ends. */
    method ParseProperties(text: seq<byte>, count: nat) returns (r: Result<nat>)
      modifies this
      ensures this.text == old(this.text)
      ensures r.Ok? <==> Walk(text, 112, count, old(Fields())).Ok?
      ensures r.Ok? ==> Walk(text, 112, count, old(Fields())) == Ok((r.value, Fields()))
      ensures r.Err? ==> r.error == Walk(text, 112, count, old(Fields())).error
    {
      ghost var walk := Walk(text, 112, count, Fields());
      var offset: nat := 112;
      for i := 0 to count
        invariant this.text == old(this.text)
        invariant walk == Walk(text, offset, count - i, Fields())
      {
        ghost var remaining := count - i;
        var next := ParseNextProperty(text, offset, remaining);
        if next.Err? { return Err(next.error); }
        offset := next.value;
        assert walk == Walk(text, offset, remaining - 1, Fields());
        assert count - (i + 1) == remaining - 1;
      }
      return Ok(offset);
    }

    /** ParseUserProperties: checks the envelope, parses the properties in
        order and checks that exactly the trailing byte is left. On failure
        the object is discarded, so the fields it leaves are not stated. */
    method ParseUserProperties(text: seq<byte>) returns (r: Result<()>)
      modifies this
      ensures this.text == old(this.text)
      ensures r.Ok? <==> Envelope(text, old(Fields())).Ok?
      ensures r.Ok? ==> Fields() == Envelope(text, old(Fields())).value
      ensures r.Err? ==> r.error == Envelope(text, old(Fields())).error
    {
      ghost var start := Fields();
      var propertyCount := ReadEnvelopeHeader(text);
      if propertyCount.Err? { return Err(propertyCount.error); }
      EnvelopeUnfold(text, start);
      var last := ParseProperties(text, propertyCount.value as nat);
      if last.Err? { return Err(last.error); }
      if last.value != |text| - 1 { return Err(AssertionError); }
      // the trailing byte at `last` is read but not checked
      return Ok(());
    }
  }

  /** dsSupplCredentials(text): a fresh object holding what the blob parses
      to, or the error that escaped its constructor. */
  method NewSupplCredentials(text: seq<byte>) returns (r: Result<SupplCredentials>)
    ensures r.Ok? <==> CredentialsOf(text).Ok?
    ensures r.Ok? ==> fresh(r.value) && r.value.Fields() == CredentialsOf(text).value && r.value.text == text
    ensures r.Err? ==> r.error == CredentialsOf(text).error
  {
    var credentials := new SupplCredentials(text);
    var parsed := credentials.ParseUserProperties(text);
    if parsed.Err? { return Err(parsed.error); }
    return Ok(credentials);
  }
}

/** What the supplemental-credentials parser guarantees: which containers it
    accepts, what one property does to the fields, and which bytes it never
    looks at. */
module UserPropertiesFacts {
  import opened Wrappers
  import opened Wire
  import opened Hex
  import opened Utf16
  import opened UserProperties

  /** `d` differs from `c` at most in the one field a property of `kind`
      sets (in none for an unrecognised name). */
  predicate SameExcept(c: Credentials, d: Credentials, kind: PropertyKind)
  {
    (kind != KerberosNewerKeysProperty ==> d.kerberosNewerKeys == c.kerberosNewerKeys)
    && (kind != KerberosProperty ==> d.kerberosKeys == c.kerberosKeys)
    && (kind != WDigestProperty ==> d.wdigestHashes == c.wdigestHashes)
    && (kind != PackagesProperty ==> d.packages == c.packages)
    && (kind != CleartextProperty ==> d.password == c.password)
  }

  /** A property changes at most the field its name selects; an unrecognised
      name changes nothing and cannot fail. A recognised one fails with
      HexError exactly when its value is not hexadecimal, and with
      UnicodeError when a package list or password is not UTF-16. */
  lemma ApplyPropertyEffect(kind: PropertyKind, value: seq<byte>, c: Credentials)
    ensures kind == OtherProperty ==> ApplyProperty(kind, value, c) == Ok(c)
    ensures ApplyProperty(kind, value, c).Ok? ==> SameExcept(c, ApplyProperty(kind, value, c).value, kind)
    ensures ApplyProperty(kind, value, c) == Err(HexError)
        <==> kind != OtherProperty && Unhexlify(Latin1(value)).None?
    ensures ApplyProperty(kind, value, c) == Err(UnicodeError)
        <==> (kind == PackagesProperty || kind == CleartextProperty)
             && Unhexlify(Latin1(value)).Some? && DecodeUtf16(Unhexlify(Latin1(value)).value).None?
    ensures ApplyProperty(kind, value, c).Err? ==> ApplyProperty(kind, value, c).error in {HexError, UnicodeError}
  {
  }

  /** The value a field held before does not matter: a property whose name
      repeats an earlier one replaces what that one stored. */
  lemma ApplyPropertyOverwrites(kind: PropertyKind, value: seq<byte>, c: Credentials, d: Credentials)
    requires SameExcept(c, d, kind)
    ensures ApplyProperty(kind, value, c) == ApplyProperty(kind, value, d)
  {
  }

  /** `Packages` is the decoded text split at every NUL: one piece more than
      there are NULs, none holding a NUL, and joining them back gives the
      text, so empty pieces are kept. */
  lemma PackagesSplit(value: seq<byte>, c: Credentials)
    requires ApplyProperty(PackagesProperty, value, c).Ok?
    ensures Unhexlify(Latin1(value)).Some? && DecodeUtf16(Unhexlify(Latin1(value)).value).Some?
    ensures var s := DecodeUtf16(Unhexlify(Latin1(value)).value).value;
      var p := ApplyProperty(PackagesProperty, value, c).value.packages;
      p.Some? && |p.value| == Count(s, 0) + 1 && Join(p.value, 0) == s
      && forall i :: 0 <= i < |p.value| ==> 0 !in p.value[i]
  {
    var s := DecodeUtf16(Unhexlify(Latin1(value)).value).value;
    SplitCount(s, 0);
    JoinSplit(s, 0);
  }

  /** The value a writer produces for a text: UTF-16LE, then hexadecimal. */
  function StoredValueOf(u: Text16): (b: seq<byte>)
    ensures Unhexlify(Latin1(b)) == Some(EncodeUtf16(u))
  {
    var h := Hexlify(EncodeUtf16(u));
    HexDigitsFitBytes(h);
    UnhexlifyHexlify(EncodeUtf16(u));
    AsciiBytes(h)
  }

  /** A well-formed text written as a `Packages` value reads back split at
      its NULs. */
  lemma PackagesOfText(u: Text16, c: Credentials)
    requires WellFormed(u)
    requires u == [] || (u[0] != 0xFEFF && u[0] != 0xFFFE)
    ensures ApplyProperty(PackagesProperty, StoredValueOf(u), c) == Ok(c.(packages := Some(Split(u, 0))))
  {
    DecodeEncodeUtf16(u);
  }

  /** A package list written the way the property stores it reads back as
      exactly the same pieces, empty ones included. */
  lemma PackagesRoundTrip(pieces: seq<Text16>, c: Credentials)
    requires |pieces| >= 1
    requires forall i :: 0 <= i < |pieces| ==> 0 !in pieces[i]
    requires WellFormed(Join(pieces, 0))
    requires var u := Join(pieces, 0); u == [] || (u[0] != 0xFEFF && u[0] != 0xFFFE)
    ensures ApplyProperty(PackagesProperty, StoredValueOf(Join(pieces, 0)), c) == Ok(c.(packages := Some(pieces)))
  {
    PackagesOfText(Join(pieces, 0), c);
    SplitJoin(pieces, 0);
  }

  /** The package list of a typical account: `str.split` keeps the empty
      piece after the final NUL. */
  lemma PackagesKeepTrailingEmpty()
    ensures Split(Wide("KerberosV5\0Negotiate\0NTLM\0"), 0)
         == [Wide("KerberosV5"), Wide("Negotiate"), Wide("NTLM"), []]
  {
    var pieces := [Wide("KerberosV5"), Wide("Negotiate"), Wide("NTLM"), []];
    WideAppend("KerberosV5", "\0");
    WideAppend("KerberosV5\0", "Negotiate\0NTLM\0");
    WideAppend("Negotiate", "\0");
    WideAppend("Negotiate\0", "NTLM\0");
    WideAppend("NTLM", "\0");
    assert Wide("\0") == [0];
    assert "KerberosV5\0Negotiate\0NTLM\0" == "KerberosV5\0" + ("Negotiate\0" + "NTLM\0");
    assert Wide("KerberosV5\0Negotiate\0NTLM\0") == Join(pieces, 0);
    SplitJoin(pieces, 0);
  }

  /** A cleartext password is stored verbatim: written the way the property
      stores it, it reads back unchanged. */
  lemma CleartextRoundTrip(u: Text16, c: Credentials)
    requires WellFormed(u)
    requires u == [] || (u[0] != 0xFEFF && u[0] != 0xFFFE)
    ensures ApplyProperty(CleartextProperty, StoredValueOf(u), c) == Ok(c.(password := Some(u)))
  {
    DecodeEncodeUtf16(u);
  }

  /** One property: it needs its six header bytes and a UTF-16 name, and
      moves the cursor by exactly 6 + NameLength + ValueLength, ValueLength
      counting the hexadecimal characters of the value. */
  lemma PropertyAtAdvances(text: seq<byte>, o: nat, c: Credentials)
    ensures o + 6 > |text| ==> PropertyAt(text, o, c) == Err(StructError)
    ensures o + 6 <= |text| && DecodeUtf16(NameBytesAt(text, o)).None? ==> PropertyAt(text, o, c) == Err(UnicodeError)
    ensures PropertyAt(text, o, c).Ok? ==>
      o + 6 <= |text| && DecodeUtf16(NameBytesAt(text, o)).Some?
      && PropertyAt(text, o, c).value.0 == o + 6 + U16At(text, o) + U16At(text, o + 2)
      && Ok(PropertyAt(text, o, c).value.1)
         == ApplyProperty(KindOf(DecodeUtf16(NameBytesAt(text, o)).value), ValueAt(text, o), c)
    ensures PropertyAt(text, o, c).Ok? && PropertyAt(text, o, c).value.0 <= |text| ==>
      |ValueAt(text, o)| == U16At(text, o + 2)
  {
  }

  /** The reserved halfword of a property header is read but never
      checked: whatever it holds, the property parses the same. */
  lemma PropertyIgnoresReserved(text: seq<byte>, o: nat, c: Credentials, b4: byte, b5: byte)
    requires o + 6 <= |text|
    ensures PropertyAt(text[o + 4 := b4][o + 5 := b5], o, c) == PropertyAt(text, o, c)
  {
    ReservedHeaderAgree(text, o, b4, b5);
  }

  /** The header and name of a property do not depend on its reserved
      halfword. */
  lemma ReservedHeaderAgree(text: seq<byte>, o: nat, b4: byte, b5: byte)
    requires o + 6 <= |text|
    ensures PropertyHeaderAt(text[o + 4 := b4][o + 5 := b5], o) == PropertyHeaderAt(text, o)
  {
    var t := text[o + 4 := b4][o + 5 := b5];
    assert U16At(t, o) == U16At(text, o) && U16At(t, o + 2) == U16At(text, o + 2);
    assert text[o + 6..] == t[o + 6..];
    NameValueAgree(text, t, o, o + 6, |text|);
  }

  /** Two byte strings with the same name and value lengths at `o` that
      agree from `from` on, up to where the property ends or to their end,
      have the same name and value there. */
  lemma NameValueAgree(t1: seq<byte>, t2: seq<byte>, o: nat, from: nat, bound: nat)
    requires |t1| == |t2| && bound <= |t1| && HasPropertyHeader(t1, o)
    requires NameLengthAt(t1, o) == NameLengthAt(t2, o) && ValueLengthAt(t1, o) == ValueLengthAt(t2, o)
    requires from <= o + 6 && from <= bound && t1[from..bound] == t2[from..bound]
    requires NextAt(t1, o) <= bound || bound == |t1|
    ensures NameBytesAt(t2, o) == NameBytesAt(t1, o) && ValueAt(t2, o) == ValueAt(t1, o)
  {
    var nameEnd := o + 6 + NameLengthAt(t1, o);
    SliceAgree(t1, t2, o + 6, nameEnd, from, bound);
    SliceAgree(t1, t2, nameEnd, NextAt(t1, o), from, bound);
  }

  /** Two byte strings of the same length that agree on positions
      from .. bound-1 have the same slice anywhere inside that range. */
  lemma SliceAgree(t1: seq<byte>, t2: seq<byte>, lo: nat, hi: nat, from: nat, bound: nat)
    requires |t1| == |t2| && bound <= |t1|
    requires from <= bound && t1[from..bound] == t2[from..bound]
    requires from <= lo && (hi <= bound || bound == |t1|)
    ensures Slice(t1, lo, hi) == Slice(t2, lo, hi)
  {
    var s1, s2 := Slice(t1, lo, hi), Slice(t2, lo, hi);
    assert |s1| == |s2|;
    forall k | 0 <= k < |s1|
      ensures s1[k] == s2[k]
    {
      assert t1[lo + k] == t1[from..bound][lo + k - from];
    }
  }

  /** A property header whose property ends by `bound` reads nothing at or
      after it. */
  lemma HeaderAgree(t1: seq<byte>, t2: seq<byte>, o: nat, bound: nat)
    requires |t1| == |t2| && bound <= |t1|
    requires t1[..bound] == t2[..bound]
    requires HasPropertyHeader(t1, o) && NextAt(t1, o) <= bound
    ensures PropertyHeaderAt(t2, o) == PropertyHeaderAt(t1, o)
  {
    assert forall k :: o <= k < o + 4 ==> t1[k] == t1[..bound][k];
    assert NameLengthAt(t1, o) == NameLengthAt(t2, o) && ValueLengthAt(t1, o) == ValueLengthAt(t2, o);
    assert t1[0..bound] == t2[0..bound];
    NameValueAgree(t1, t2, o, 0, bound);
  }

  /** A property that ends by `bound` reads nothing at or after it. */
  lemma PropertyAtAgree(t1: seq<byte>, t2: seq<byte>, o: nat, c: Credentials, bound: nat)
    requires |t1| == |t2| && bound <= |t1|
    requires t1[..bound] == t2[..bound]
    requires PropertyAt(t1, o, c).Ok? && PropertyAt(t1, o, c).value.0 <= bound
    ensures PropertyAt(t2, o, c) == PropertyAt(t1, o, c)
  {
    PropertyAtAdvances(t1, o, c);
    HeaderAgree(t1, t2, o, bound);
  }

  /** A walk over any step function: what Walk does with PropertyAt, with
      the parsing of one property left abstract. */
  function Steps(step: (nat, Credentials) -> Result<(nat, Credentials)>, o: nat, count: nat, c: Credentials)
    : Result<(nat, Credentials)>
    decreases count
  {
    if count == 0 then Ok((o, c))
    else
      var (next, c') :- step(o, c);
      Steps(step, next, count - 1, c')
  }

  /** Walk is Steps with the property parser as its step. */
  lemma {:induction false} WalkIsSteps(text: seq<byte>, step: (nat, Credentials) -> Result<(nat, Credentials)>,
                                        o: nat, count: nat, c: Credentials)
    requires forall o': nat, c': Credentials :: step(o', c') == PropertyAt(text, o', c')
    ensures Walk(text, o, count, c) == Steps(step, o, count, c)
    decreases count
  {
    if count > 0 {
      WalkStep(text, o, count, c);
      var p := PropertyAt(text, o, c);
      if p.Ok? {
        WalkIsSteps(text, step, p.value.0, count - 1, p.value.1);
      }
    }
  }

  /** A walk whose steps never move the cursor backwards ends at or after
      where it starts. */
  lemma {:induction false} StepsAdvance(step: (nat, Credentials) -> Result<(nat, Credentials)>,
                                         o: nat, count: nat, c: Credentials)
    requires forall o': nat, c': Credentials :: step(o', c').Ok? ==> o' <= step(o', c').value.0
    requires Steps(step, o, count, c).Ok?
    ensures o <= Steps(step, o, count, c).value.0
    decreases count
  {
    if count > 0 {
      var p := step(o, c).value;
      StepsAdvance(step, p.0, count - 1, p.1);
    }
  }

  /** Two step functions that agree on every step ending by `bound` give
      the same walk, when the first walk ends by `bound`. */
  lemma {:induction false} StepsAgree(s1: (nat, Credentials) -> Result<(nat, Credentials)>,
                                       s2: (nat, Credentials) -> Result<(nat, Credentials)>,
                                       o: nat, count: nat, c: Credentials, bound: nat)
    requires forall o': nat, c': Credentials :: s1(o', c').Ok? ==> o' <= s1(o', c').value.0
    requires forall o': nat, c': Credentials :: s1(o', c').Ok? && s1(o', c').value.0 <= bound ==> s2(o', c') == s1(o', c')
    requires Steps(s1, o, count, c).Ok? && Steps(s1, o, count, c).value.0 <= bound
    ensures Steps(s2, o, count, c) == Steps(s1, o, count, c)
    decreases count
  {
    if count > 0 {
      var p := s1(o, c).value;
      StepsAdvance(s1, p.0, count - 1, p.1);
      StepsAgree(s1, s2, p.0, count - 1, p.1, bound);
    }
  }

  /** The container is accepted exactly when its fixed part checks out and
      its properties end one byte before the end of the blob. */
  lemma EnvelopeAccepts(text: seq<byte>)
    ensures CredentialsOf(text).Ok? <==>
      |text| >= 112 && U32At(text, 0) == 0 && |text| == U32At(text, 4) + 13
      && U16At(text, 8) == 0 && U16At(text, 10) == 0 && U16At(text, 108) == 0x50
      && Walk(text, 112, U16At(text, 110), NoCredentials).Ok?
      && Walk(text, 112, U16At(text, 110), NoCredentials).value.0 == |text| - 1
    ensures CredentialsOf(text).Ok? ==>
      CredentialsOf(text).value == Walk(text, 112, U16At(text, 110), NoCredentials).value.1
  {
    if EnvelopeHeader(text).Ok? {
      EnvelopeUnfold(text, NoCredentials);
    }
  }

  /** The fixed part reads nothing from position 112 on. */
  lemma EnvelopeHeaderAgree(t1: seq<byte>, t2: seq<byte>)
    requires |t1| == |t2| && 112 <= |t1|
    requires t1[..112] == t2[..112]
    ensures EnvelopeHeader(t2) == EnvelopeHeader(t1)
  {
    assert forall k :: 0 <= k < 112 ==> t1[k] == t1[..112][k];
    assert U32At(t1, 0) == U32At(t2, 0) && U32At(t1, 4) == U32At(t2, 4);
    assert U16At(t1, 8) == U16At(t2, 8) && U16At(t1, 10) == U16At(t2, 10);
    assert U16At(t1, 108) == U16At(t2, 108) && U16At(t1, 110) == U16At(t2, 110);
  }

  /** The trailing byte is never validated: an accepted blob is accepted
      with the same result whatever its last byte holds. */
  lemma IgnoresLastByte(text: seq<byte>, b: byte)
    requires CredentialsOf(text).Ok?
    ensures |text| >= 1 && CredentialsOf(text[|text| - 1 := b]) == CredentialsOf(text)
  {
    EnvelopeAccepts(text);
    var t := text[|text| - 1 := b];
    var count := U16At(text, 110);
    assert text[..|text| - 1] == t[..|text| - 1];
    assert text[..112] == t[..112];
    EnvelopeHeaderAgree(text, t);
    var s1 := (o: nat, c: Credentials) => PropertyAt(text, o, c);
    var s2 := (o: nat, c: Credentials) => PropertyAt(t, o, c);
    WalkIsSteps(text, s1, 112, count, NoCredentials);
    WalkIsSteps(t, s2, 112, count, NoCredentials);
    forall o: nat, c: Credentials | s1(o, c).Ok?
      ensures o <= s1(o, c).value.0
    {
      PropertyAtAdvances(text, o, c);
    }
    forall o: nat, c: Credentials | s1(o, c).Ok? && s1(o, c).value.0 <= |text| - 1
      ensures s2(o, c) == s1(o, c)
    {
      PropertyAtAgree(text, t, o, c, |text| - 1);
    }
    StepsAgree(s1, s2, 112, count, NoCredentials, |text| - 1);
    EnvelopeAccepts(t);
  }
}

/** The flag decoders of dsAccount: getSAMAccountType (the samAccountType
    values of section 2.2.1.9 of [MS-SAMR]) and getUserAccountControl (the
    userAccountControl bits of section 2.2.16 of [MS-ADTS]).

    Both test `x & m == m` on a Python integer, which may be negative: the
    unset value of both attributes is -1. Python's `&` works on the
    two's-complement expansion of its operands; BitAnd spells it out. */
module Flags {
  import opened Wrappers

  /** Python's `x & m` for a non-negative mask. Dafny's `x / 2` rounds
      toward negative infinity and `x % 2` is 0 or 1, so halving is the
      arithmetic shift Python's integers use. */
  function BitAnd(x: int, m: nat): (r: nat)
    ensures r <= m
    decreases m
  {
    if m == 0 then 0
    else 2 * BitAnd(x / 2, m / 2) + (if x % 2 == 1 && m % 2 == 1 then 1 else 0)
  }

  /** The source's test `x & m == m` (HasFlagsIsBitAnd), bit by bit: every
      bit set in m is set in x. */
  predicate HasFlags(x: int, m: nat)
    decreases m
  {
    m == 0 || ((m % 2 == 0 || x % 2 == 1) && HasFlags(x / 2, m / 2))
  }

  lemma {:induction false} HasFlagsIsBitAnd(x: int, m: nat)
    ensures HasFlags(x, m) <==> BitAnd(x, m) == m
    decreases m
  {
    if m > 0 {
      HasFlagsIsBitAnd(x / 2, m / 2);
    }
  }

  /** Bit k of x in two's complement, by shifting. */
  predicate Bit(x: int, k: nat)
    decreases k
  {
    if k == 0 then x % 2 == 1 else Bit(x / 2, k - 1)
  }

  /** m is 2^k: bit k is its only bit. */
  predicate OnlyBit(m: nat, k: nat)
    decreases k
  {
    if k == 0 then m == 1 else m % 2 == 0 && OnlyBit(m / 2, k - 1)
  }

  lemma {:induction false} NoBits(k: nat)
    ensures !Bit(0, k)
  {
    if k > 0 {
      NoBits(k - 1);
    }
  }

  /** A value that lacks a bit of the mask fails the test. */
  lemma {:induction false} Lacks(x: int, m: nat, k: nat)
    requires Bit(m, k) && !Bit(x, k)
    ensures !HasFlags(x, m)
    decreases k
  {
    if k > 0 {
      NoBits(k);
      Lacks(x / 2, m / 2, k - 1);
    }
  }

  /** Every value passes the test for itself. */
  lemma {:induction false} HasFlagsSelf(m: nat)
    ensures HasFlags(m, m)
    decreases m
  {
    if m > 0 {
      HasFlagsSelf(m / 2);
    }
  }

  /** For a single-bit mask the source's test is a test of that bit. */
  lemma {:induction false} SingleBit(x: int, m: nat, k: nat)
    requires OnlyBit(m, k)
    ensures HasFlags(x, m) <==> Bit(x, k)
    decreases k
  {
    if k > 0 {
      SingleBit(x / 2, m / 2, k - 1);
    }
  }

  /** The unset value -1 has every bit set, so it passes every test. */
  lemma {:induction false} MinusOneHasFlags(m: nat)
    ensures HasFlags(-1, m)
    decreases m
  {
    if m > 0 {
      MinusOneHasFlags(m / 2);
    }
  }

  // getSAMAccountType

  /** The masks getSAMAccountType tests, in the order it tests them. */
  const SamAccountTypes: seq<(nat, string)> := [
    (0x3000_0001, "SAM_MACHINE_ACCOUNT"),
    (0x3000_0002, "SAM_TRUST_ACCOUNT"),
    (0x3000_0000, "SAM_NORMAL_USER_ACCOUNT"),
    (0x1000_0001, "SAM_NON_SECURITY_GROUP_OBJECT"),
    (0x1000_0000, "SAM_GROUP_OBJECT"),
    (0x2000_0001, "SAM_NON_SECURITY_ALIAS_OBJECT"),
    (0x2000_0000, "SAM_ALIAS_OBJECT"),
    (0x4000_0001, "SAM_APP_QUERY_GROUP"),
    (0x4000_0000, "SAM_APP_BASIC_GROUP")]

  /** The name of the first mask in `table` that x has, if any. */
  function FirstMatch(table: seq<(nat, string)>, x: int): Option<string>
    decreases |table|
  {
    if table == [] then None
    else if HasFlags(x, table[0].0) then Some(table[0].1)
    else FirstMatch(table[1..], x)
  }

  /** FirstMatch picks the entry at i exactly when that is the first whose
      mask x has. */
  lemma {:induction false} FirstMatchAt(table: seq<(nat, string)>, x: int, i: nat)
    requires i < |table| && HasFlags(x, table[i].0)
    requires forall j :: 0 <= j < i ==> !HasFlags(x, table[j].0)
    ensures FirstMatch(table, x) == Some(table[i].1)
    decreases i
  {
    if i > 0 {
      assert !HasFlags(x, table[0].0);
      FirstMatchAt(table[1..], x, i - 1);
    }
  }

  /** FirstMatch finds nothing exactly when x has none of the masks. */
  lemma {:induction false} FirstMatchNone(table: seq<(nat, string)>, x: int)
    ensures FirstMatch(table, x).None? <==> forall i :: 0 <= i < |table| ==> !HasFlags(x, table[i].0)
    decreases |table|
  {
    if table != [] {
      FirstMatchNone(table[1..], x);
      assert forall i :: 1 <= i < |table| ==> table[i] == table[1..][i - 1];
    }
  }

  /** getSAMAccountType: "" for the unset value; otherwise the name of the
      first mask in SamAccountTypes that the value has, or nothing (the
      method falls off its end and returns None). */
  function SamAccountTypeName(t: int): (r: Option<string>)
    ensures t == -1 ==> r == Some("")
    ensures t != -1 ==> r == FirstMatch(SamAccountTypes, t)
  {
    if t != -1 then
      if HasFlags(t, 0x3000_0001) then Some("SAM_MACHINE_ACCOUNT")
      else if HasFlags(t, 0x3000_0002) then Some("SAM_TRUST_ACCOUNT")
      else if HasFlags(t, 0x3000_0000) then Some("SAM_NORMAL_USER_ACCOUNT")
      else if HasFlags(t, 0x1000_0001) then Some("SAM_NON_SECURITY_GROUP_OBJECT")
      else if HasFlags(t, 0x1000_0000) then Some("SAM_GROUP_OBJECT")
      else if HasFlags(t, 0x2000_0001) then Some("SAM_NON_SECURITY_ALIAS_OBJECT")
      else if HasFlags(t, 0x2000_0000) then Some("SAM_ALIAS_OBJECT")
      else if HasFlags(t, 0x4000_0001) then Some("SAM_APP_QUERY_GROUP")
      else if HasFlags(t, 0x4000_0000) then Some("SAM_APP_BASIC_GROUP")
      else None
    else Some("")
  }

  /** Bits 0 and 1 of the samAccountType values. */
  lemma LowBits()
    ensures !Bit(0x1000_0000, 0)
    ensures Bit(0x1000_0001, 0)
    ensures !Bit(0x2000_0000, 0)
    ensures Bit(0x2000_0001, 0)
    ensures !Bit(0x3000_0000, 0)
    ensures Bit(0x3000_0001, 0)
    ensures !Bit(0x3000_0002, 0)
    ensures !Bit(0x4000_0000, 0)
    ensures Bit(0x4000_0001, 0)
    ensures !Bit(0x1000_0000, 1)
    ensures !Bit(0x1000_0001, 1)
    ensures !Bit(0x2000_0000, 1)
    ensures !Bit(0x2000_0001, 1)
    ensures !Bit(0x3000_0000, 1)
    ensures Bit(0x3000_0002, 1)
    ensures !Bit(0x4000_0000, 1)
    ensures !Bit(0x4000_0001, 1)
  {
  }

  /** Bit 28 of the samAccountType values. */
  lemma Bit28()
    ensures Bit(0x1000_0000, 28)
    ensures Bit(0x1000_0001, 28)
    ensures !Bit(0x2000_0000, 28)
    ensures !Bit(0x2000_0001, 28)
    ensures Bit(0x3000_0000, 28)
    ensures Bit(0x3000_0001, 28)
    ensures !Bit(0x4000_0000, 28)
    ensures !Bit(0x4000_0001, 28)
  {
    assert Bit(0x10, 4) && !Bit(0x20, 4) && Bit(0x30, 4) && !Bit(0x40, 4);
    assert Bit(0x100, 8) && !Bit(0x200, 8) && Bit(0x300, 8) && !Bit(0x400, 8);
    assert Bit(0x1000, 12) && !Bit(0x2000, 12) && Bit(0x3000, 12) && !Bit(0x4000, 12);
    assert Bit(0x1_0000, 16) && !Bit(0x2_0000, 16) && Bit(0x3_0000, 16) && !Bit(0x4_0000, 16);
    assert Bit(0x10_0000, 20) && !Bit(0x20_0000, 20) && Bit(0x30_0000, 20) && !Bit(0x40_0000, 20);
    assert Bit(0x100_0000, 24) && !Bit(0x200_0000, 24) && Bit(0x300_0000, 24) && !Bit(0x400_0000, 24);
  }

  /** Bit 29 of the samAccountType values. */
  lemma Bit29()
    ensures !Bit(0x1000_0000, 29)
    ensures !Bit(0x1000_0001, 29)
    ensures Bit(0x2000_0000, 29)
    ensures Bit(0x2000_0001, 29)
    ensures Bit(0x3000_0000, 29)
    ensures Bit(0x3000_0001, 29)
    ensures !Bit(0x4000_0000, 29)
    ensures !Bit(0x4000_0001, 29)
  {
    assert !Bit(0x10, 5) && Bit(0x20, 5) && Bit(0x30, 5) && !Bit(0x40, 5);
    assert !Bit(0x100, 9) && Bit(0x200, 9) && Bit(0x300, 9) && !Bit(0x400, 9);
    assert !Bit(0x1000, 13) && Bit(0x2000, 13) && Bit(0x3000, 13) && !Bit(0x4000, 13);
    assert !Bit(0x1_0000, 17) && Bit(0x2_0000, 17) && Bit(0x3_0000, 17) && !Bit(0x4_0000, 17);
    assert !Bit(0x10_0000, 21) && Bit(0x20_0000, 21) && Bit(0x30_0000, 21) && !Bit(0x40_0000, 21);
    assert !Bit(0x100_0000, 25) && Bit(0x200_0000, 25) && Bit(0x300_0000, 25) && !Bit(0x400_0000, 25);
  }

  /** Each value on its own: HasFlagsSelf for its own test, and for every
      earlier test a bit of that mask the value lacks. */
  lemma SamMachineAccount()
    ensures SamAccountTypeName(0x3000_0001) == Some("SAM_MACHINE_ACCOUNT")
  {
    LowBits();
    Bit28();
    Bit29();
    HasFlagsSelf(0x3000_0001);
  }

  lemma SamTrustAccount()
    ensures SamAccountTypeName(0x3000_0002) == Some("SAM_TRUST_ACCOUNT")
  {
    LowBits();
    Bit28();
    Bit29();
    HasFlagsSelf(0x3000_0002);
    Lacks(0x3000_0002, 0x3000_0001, 0);
  }

  lemma SamNormalUserAccount()
    ensures SamAccountTypeName(0x3000_0000) == Some("SAM_NORMAL_USER_ACCOUNT")
  {
    LowBits();
    Bit28();
    Bit29();
    HasFlagsSelf(0x3000_0000);
    Lacks(0x3000_0000, 0x3000_0001, 0);
    Lacks(0x3000_0000, 0x3000_0002, 1);
  }

  lemma SamNonSecurityGroupObject()
    ensures SamAccountTypeName(0x1000_0001) == Some("SAM_NON_SECURITY_GROUP_OBJECT")
  {
    LowBits();
    Bit28();
    Bit29();
    HasFlagsSelf(0x1000_0001);
    Lacks(0x1000_0001, 0x3000_0001, 29);
    Lacks(0x1000_0001, 0x3000_0002, 1);
    Lacks(0x1000_0001, 0x3000_0000, 29);
  }

  lemma SamGroupObject()
    ensures SamAccountTypeName(0x1000_0000) == Some("SAM_GROUP_OBJECT")
  {
    LowBits();
    Bit28();
    Bit29();
    HasFlagsSelf(0x1000_0000);
    Lacks(0x1000_0000, 0x3000_0001, 0);
    Lacks(0x1000_0000, 0x3000_0002, 1);
    Lacks(0x1000_0000, 0x3000_0000, 29);
    Lacks(0x1000_0000, 0x1000_0001, 0);
  }

  lemma SamNonSecurityAliasObject()
    ensures SamAccountTypeName(0x2000_0001) == Some("SAM_NON_SECURITY_ALIAS_OBJECT")
  {
    LowBits();
    Bit28();
    Bit29();
    HasFlagsSelf(0x2000_0001);
    Lacks(0x2000_0001, 0x3000_0001, 28);
    Lacks(0x2000_0001, 0x3000_0002, 1);
    Lacks(0x2000_0001, 0x3000_0000, 28);
    Lacks(0x2000_0001, 0x1000_0001, 28);
    Lacks(0x2000_0001, 0x1000_0000, 28);
  }

  lemma SamAliasObject()
    ensures SamAccountTypeName(0x2000_0000) == Some("SAM_ALIAS_OBJECT")
  {
    LowBits();
    Bit28();
    Bit29();
    HasFlagsSelf(0x2000_0000);
    Lacks(0x2000_0000, 0x3000_0001, 0);
    Lacks(0x2000_0000, 0x3000_0002, 1);
    Lacks(0x2000_0000, 0x3000_0000, 28);
    Lacks(0x2000_0000, 0x1000_0001, 0);
    Lacks(0x2000_0000, 0x1000_0000, 28);
    Lacks(0x2000_0000, 0x2000_0001, 0);
  }

  lemma SamAppQueryGroup()
    ensures SamAccountTypeName(0x4000_0001) == Some("SAM_APP_QUERY_GROUP")
  {
    LowBits();
    Bit28();
    Bit29();
    HasFlagsSelf(0x4000_0001);
    Lacks(0x4000_0001, 0x3000_0001, 28);
    Lacks(0x4000_0001, 0x3000_0002, 1);
    Lacks(0x4000_0001, 0x3000_0000, 28);
    Lacks(0x4000_0001, 0x1000_0001, 28);
    Lacks(0x4000_0001, 0x1000_0000, 28);
    Lacks(0x4000_0001, 0x2000_0001, 29);
    Lacks(0x4000_0001, 0x2000_0000, 29);
  }

  lemma SamAppBasicGroup()
    ensures SamAccountTypeName(0x4000_0000) == Some("SAM_APP_BASIC_GROUP")
  {
    LowBits();
    Bit28();
    Bit29();
    HasFlagsSelf(0x4000_0000);
    Lacks(0x4000_0000, 0x3000_0001, 0);
    Lacks(0x4000_0000, 0x3000_0002, 1);
    Lacks(0x4000_0000, 0x3000_0000, 28);
    Lacks(0x4000_0000, 0x1000_0001, 0);
    Lacks(0x4000_0000, 0x1000_0000, 28);
    Lacks(0x4000_0000, 0x2000_0001, 0);
    Lacks(0x4000_0000, 0x2000_0000, 29);
    Lacks(0x4000_0000, 0x4000_0001, 0);
  }

  /** Zero has none of the bits of a nonzero mask. */
  lemma {:induction false} ZeroHasNoFlags(m: nat)
    ensures HasFlags(0, m) <==> m == 0
    decreases m
  {
    if m > 0 && m % 2 == 0 {
      ZeroHasNoFlags(m / 2);
    }
  }

  /** SAM_DOMAIN_OBJECT (0) passes none of the tests, so the method
      returns None for it. */
  lemma SamDomainObject()
    ensures SamAccountTypeName(0).None?
  {
    ZeroHasNoFlags(0x3000_0001);
    ZeroHasNoFlags(0x3000_0002);
    ZeroHasNoFlags(0x3000_0000);
    ZeroHasNoFlags(0x1000_0001);
    ZeroHasNoFlags(0x1000_0000);
    ZeroHasNoFlags(0x2000_0001);
    ZeroHasNoFlags(0x2000_0000);
    ZeroHasNoFlags(0x4000_0001);
    ZeroHasNoFlags(0x4000_0000);
  }

  /** Every samAccountType value of [MS-SAMR] gets its own name: no test
      before its own one passes. The order matters, since 0x30000001 and
      0x30000002 also have the bits of 0x30000000. */
  lemma SamAccountTypeValues()
    ensures SamAccountTypeName(0x3000_0001) == Some("SAM_MACHINE_ACCOUNT")
    ensures SamAccountTypeName(0x3000_0002) == Some("SAM_TRUST_ACCOUNT")
    ensures SamAccountTypeName(0x3000_0000) == Some("SAM_NORMAL_USER_ACCOUNT")
    ensures SamAccountTypeName(0x1000_0001) == Some("SAM_NON_SECURITY_GROUP_OBJECT")
    ensures SamAccountTypeName(0x1000_0000) == Some("SAM_GROUP_OBJECT")
    ensures SamAccountTypeName(0x2000_0001) == Some("SAM_NON_SECURITY_ALIAS_OBJECT")
    ensures SamAccountTypeName(0x2000_0000) == Some("SAM_ALIAS_OBJECT")
    ensures SamAccountTypeName(0x4000_0001) == Some("SAM_APP_QUERY_GROUP")
    ensures SamAccountTypeName(0x4000_0000) == Some("SAM_APP_BASIC_GROUP")
    ensures SamAccountTypeName(0).None?
  {
    SamMachineAccount();
    SamTrustAccount();
    SamNormalUserAccount();
    SamNonSecurityGroupObject();
    SamGroupObject();
    SamNonSecurityAliasObject();
    SamAliasObject();
    SamAppQueryGroup();
    SamAppBasicGroup();
    SamDomainObject();
  }

  // getUserAccountControl

  /** An entry of the table getUserAccountControl works through: the bit,
      the mask the source writes for it, and the name it reports. */
  datatype AccountControlFlag = AccountControlFlag(bit: nat, mask: nat, name: string)

  const AccountControlFlagCount: nat := 12

  /** Entry i, in the order the source tests them. */
  function AccountControlFlagAt(i: nat): AccountControlFlag
    requires i < AccountControlFlagCount
  {
    if i == 0 then AccountControlFlag(1, 0x2, "Disabled")
    else if i == 1 then AccountControlFlag(4, 0x10, "Locked")
    else if i == 2 then AccountControlFlag(5, 0x20, "PWD Not Required")
    else if i == 3 then AccountControlFlag(6, 0x40, "User cannot change PWD")
    else if i == 4 then AccountControlFlag(7, 0x80, "Encrypted clear text PWD allowed")
    else if i == 5 then AccountControlFlag(9, 0x200, "NORMAL_ACCOUNT")
    else if i == 6 then AccountControlFlag(11, 0x800, "INTERDOMAIN_TRUST_ACCOUNT")
    else if i == 7 then AccountControlFlag(12, 0x1000, "WORKSTATION_TRUST_ACCOUNT")
    else if i == 8 then AccountControlFlag(13, 0x2000, "SERVER_TRUST_ACCOUNT")
    else if i == 9 then AccountControlFlag(16, 0x1_0000, "PWD Never Expires")
    else if i == 10 then AccountControlFlag(18, 0x4_0000, "Smartcard Required")
    else AccountControlFlag(23, 0x80_0000, "PWD Expired")
  }

  /** The masks are the single bits they stand for. */
  lemma MasksAreBits()
    ensures OnlyBit(0x2, 1) && OnlyBit(0x10, 4) && OnlyBit(0x20, 5) && OnlyBit(0x40, 6)
    ensures OnlyBit(0x80, 7) && OnlyBit(0x200, 9) && OnlyBit(0x800, 11) && OnlyBit(0x1000, 12)
    ensures OnlyBit(0x2000, 13) && OnlyBit(0x1_0000, 16) && OnlyBit(0x4_0000, 18) && OnlyBit(0x80_0000, 23)
  {
    assert OnlyBit(0x100, 8);
    assert OnlyBit(0x800, 11);
  }

  lemma MaskIsBit(i: nat)
    requires i < AccountControlFlagCount
    ensures OnlyBit(AccountControlFlagAt(i).mask, AccountControlFlagAt(i).bit)
  {
    MasksAreBits();
  }

  /** The names of the first n entries whose bits are set in x, in table
      order. */
  function FlagNames(x: int, n: nat): seq<string>
    requires n <= AccountControlFlagCount
  {
    if n == 0 then []
    else
      var flag := AccountControlFlagAt(n - 1);
      FlagNames(x, n - 1) + (if Bit(x, flag.bit) then [flag.name] else [])
  }

  /** What getUserAccountControl returns: nothing for the unset value,
      otherwise the names of the bits set. */
  function AccountControlNames(uac: int): seq<string>
  {
    if uac == -1 then [] else FlagNames(uac, AccountControlFlagCount)
  }

  /** One test of getUserAccountControl, `if x & mask == mask:
      uac.append(name)`, for entry k of the table. */
  method ReportFlag(x: int, mask: nat, name: string, uac: seq<string>, ghost k: nat) returns (r: seq<string>)
    requires k < AccountControlFlagCount
    requires AccountControlFlagAt(k).mask == mask && AccountControlFlagAt(k).name == name
    requires uac == FlagNames(x, k)
    ensures r == FlagNames(x, k + 1)
  {
    MaskIsBit(k);
    SingleBit(x, mask, AccountControlFlagAt(k).bit);
    r := uac;
    if HasFlags(x, mask) {
      r := r + [name];
    }
  }

  /** getUserAccountControl. */
  method GetUserAccountControl(userAccountControl: int) returns (uac: seq<string>)
    ensures uac == AccountControlNames(userAccountControl)
  {
    uac := [];
    if userAccountControl != -1 {
      var x := userAccountControl;
      uac := ReportFlag(x, 0x2, "Disabled", uac, 0);
      uac := ReportFlag(x, 0x10, "Locked", uac, 1);
      uac := ReportFlag(x, 0x20, "PWD Not Required", uac, 2);
      uac := ReportFlag(x, 0x40, "User cannot change PWD", uac, 3);
      uac := ReportFlag(x, 0x80, "Encrypted clear text PWD allowed", uac, 4);
      uac := ReportFlag(x, 0x200, "NORMAL_ACCOUNT", uac, 5);
      uac := ReportFlag(x, 0x800, "INTERDOMAIN_TRUST_ACCOUNT", uac, 6);
      uac := ReportFlag(x, 0x1000, "WORKSTATION_TRUST_ACCOUNT", uac, 7);
      uac := ReportFlag(x, 0x2000, "SERVER_TRUST_ACCOUNT", uac, 8);
      uac := ReportFlag(x, 0x1_0000, "PWD Never Expires", uac, 9);
      uac := ReportFlag(x, 0x4_0000, "Smartcard Required", uac, 10);
      uac := ReportFlag(x, 0x80_0000, "PWD Expired", uac, 11);
    }
  }

  /** The names of distinct entries differ. */
  lemma NamesDistinct(i: nat, j: nat)
    requires i < j < AccountControlFlagCount
    ensures AccountControlFlagAt(i).name != AccountControlFlagAt(j).name
  {
    var a, b := AccountControlFlagAt(i).name, AccountControlFlagAt(j).name;
    assert |a| != |b| || a[0] != b[0];
  }

  /** Among the first n entries, the name of entry i is reported exactly
      when its bit is set, and no name of a later entry is reported. */
  lemma {:induction false} FlagNamesMembership(x: int, n: nat, i: nat)
    requires n <= AccountControlFlagCount && i < AccountControlFlagCount
    ensures AccountControlFlagAt(i).name in FlagNames(x, n) <==> i < n && Bit(x, AccountControlFlagAt(i).bit)
    ensures |FlagNames(x, n)| <= n
  {
    if n > 0 {
      FlagNamesMembership(x, n - 1, i);
      if i != n - 1 {
        if i < n - 1 { NamesDistinct(i, n - 1); } else { NamesDistinct(n - 1, i); }
      }
    }
  }

  /** The reported names are exactly the names of the bits set; the unset
      value -1 (whose every bit is set) reports none. */
  lemma AccountControlMembership(uac: int, i: nat)
    requires i < AccountControlFlagCount
    ensures AccountControlFlagAt(i).name in AccountControlNames(uac) <==> uac != -1 && Bit(uac, AccountControlFlagAt(i).bit)
    ensures |AccountControlNames(uac)| <= AccountControlFlagCount
  {
    if uac != -1 {
      FlagNamesMembership(uac, AccountControlFlagCount, i);
    }
  }
}

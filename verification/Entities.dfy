/** Value objects of the domain layer: interface names, hardware addresses and
    the NetworkInterface entity. */
module Entities {
  import opened Text

  const PREFIX := "multinic"
  const MAX_INTERFACES := 10
  const MAX_INT64 := 0x7fff_ffff_ffff_ffff

  datatype NameError = EmptyName | BadFormat | BadIndex | OutOfRange
  datatype NameResult = Named(index: nat) | Rejected(error: NameError)

  /** multinic<i> */
  function CanonicalName(i: nat): string { PREFIX + Decimal(i) }

  /** The pattern ^multinic([0-9]+)$. */
  predicate MatchesPattern(name: string) {
    HasPrefix(name, PREFIX) && |name| > |PREFIX| && AllDigits(name[|PREFIX|..])
  }

  /** entities.NewInterfaceName: the pattern first, then the integer conversion, then the range. */
  function NewInterfaceName(name: string): NameResult {
    if name == "" then Rejected(EmptyName)
    else if !MatchesPattern(name) then Rejected(BadFormat)
    else if Value(name[|PREFIX|..]) > MAX_INT64 then Rejected(BadIndex)
    else if Value(name[|PREFIX|..]) >= MAX_INTERFACES then Rejected(OutOfRange)
    else Named(Value(name[|PREFIX|..]))
  }

  predicate ValidName(name: string) { NewInterfaceName(name).Named? }

  /** A name is canonical when it is the one printed for its own index. */
  predicate Canonical(name: string) {
    ValidName(name) && name == CanonicalName(NewInterfaceName(name).index)
  }

  lemma CanonicalNameParses(i: nat)
    requires i < MAX_INTERFACES
    ensures NewInterfaceName(CanonicalName(i)) == Named(i)
    ensures Canonical(CanonicalName(i))
  {
    DecimalRoundTrip(i);
    assert CanonicalName(i)[..|PREFIX|] == PREFIX;
    assert CanonicalName(i)[|PREFIX|..] == Decimal(i);
  }

  lemma CanonicalNameInjective(i: nat, j: nat)
    requires CanonicalName(i) == CanonicalName(j)
    ensures i == j
  {
    assert CanonicalName(i)[|PREFIX|..] == Decimal(i);
    assert CanonicalName(j)[|PREFIX|..] == Decimal(j);
    DecimalRoundTrip(i);
    DecimalRoundTrip(j);
  }

  /** A valid name is canonical exactly when its digits carry no padding, that is when it has
      a single digit: "multinic05" is accepted with index 5 but is not the canonical name of 5. */
  lemma CanonicalIffUnpadded(name: string)
    requires ValidName(name)
    ensures Canonical(name) <==> |name| == |PREFIX| + 1
  {
  }

  function Zeros(z: nat): string { if z == 0 then "" else "0" + Zeros(z - 1) }

  lemma {:induction false} ZerosDigits(z: nat, s: string)
    requires AllDigits(s)
    ensures AllDigits(Zeros(z) + s) && Value(Zeros(z) + s) == Value(s)
  {
    if z == 0 {
      assert Zeros(0) + s == s;
    } else {
      ZerosDigits(z - 1, s);
      LeadingZero(Zeros(z - 1) + s);
      assert Zeros(z) + s == "0" + (Zeros(z - 1) + s);
    }
  }

  /** A run of digits is the decimal text of its value behind some zeros. */
  lemma {:induction false} DigitsArePadded(s: string) returns (z: nat)
    requires AllDigits(s) && s != ""
    ensures s == Zeros(z) + Decimal(Value(s))
  {
    if |s| == 1 || s[0] != '0' {
      CanonicalDigits(s);
      z := 0;
    } else {
      assert s == "0" + s[1..];
      LeadingZero(s[1..]);
      var y := DigitsArePadded(s[1..]);
      z := y + 1;
    }
  }

  /** A name is accepted with index i exactly when it is multinic, any number of zeros, and i below 10. */
  lemma AcceptedIff(name: string, i: nat)
    ensures NewInterfaceName(name) == Named(i) <==>
            i < MAX_INTERFACES && exists z: nat :: name == PREFIX + (Zeros(z) + Decimal(i))
  {
    if NewInterfaceName(name) == Named(i) {
      var z := DigitsArePadded(name[|PREFIX|..]);
      assert name == PREFIX + name[|PREFIX|..];
    }
    if z: nat :| i < MAX_INTERFACES && name == PREFIX + (Zeros(z) + Decimal(i)) {
      PaddedNameParses(z, i);
    }
  }

  lemma PaddedNameParses(z: nat, i: nat)
    requires i < MAX_INTERFACES
    ensures NewInterfaceName(PREFIX + (Zeros(z) + Decimal(i))) == Named(i)
  {
    var digits := Zeros(z) + Decimal(i);
    DecimalRoundTrip(i);
    ZerosDigits(z, Decimal(i));
    assert (PREFIX + digits)[..|PREFIX|] == PREFIX && (PREFIX + digits)[|PREFIX|..] == digits;
  }

  predicate IsHex(c: char) { IsDigit(c) || 'a' <= c <= 'f' || 'A' <= c <= 'F' }

  /** net.ParseMAC: 6, 8 or 20 octets as xx:xx:.., xx-xx-.. or xxxx.xxxx... */
  predicate ParsesAsMac(s: string) {
    |s| >= 14 && (
      if s[2] == ':' || s[2] == '-' then
        (|s| + 1) % 3 == 0 && (|s| + 1) / 3 in {6, 8, 20} &&
        forall k | 0 <= k < |s| :: if k % 3 == 2 then s[k] == s[2] else IsHex(s[k])
      else
        s[4] == '.' && (|s| + 1) % 5 == 0 && 2 * (|s| + 1) / 5 in {6, 8, 20} &&
        forall k | 0 <= k < |s| :: if k % 5 == 4 then s[k] == '.' else IsHex(s[k])
    )
  }

  lemma HexAtEnds(s: string)
    requires ParsesAsMac(s)
    ensures IsHex(s[0]) && IsHex(s[|s| - 1])
  {
    if s[2] == ':' || s[2] == '-' {
      assert (|s| - 1) % 3 == 1;
    } else {
      assert (|s| - 1) % 5 == 3;
    }
  }

  /** An accepted hardware address carries no white space, so trimming leaves it alone. */
  lemma MacNeedsNoTrim(s: string)
    requires ParsesAsMac(s)
    ensures s != "" && ToLower(s) != "" && TrimSpace(s) == s
  {
    HexAtEnds(s);
    assert !IsSpace(s[0]) && !IsSpace(s[|s| - 1]);
  }

  predicate IsLowerAlnum(c: char) { IsDigit(c) || 'a' <= c <= 'z' }

  /** One dot-separated part of a node name. */
  predicate IsNodeLabel(t: string) {
    && t != "" && IsLowerAlnum(t[0]) && IsLowerAlnum(t[|t| - 1])
    && forall k | 0 <= k < |t| :: IsLowerAlnum(t[k]) || t[k] == '-'
  }

  /** entities.NewNodeName: at most 253 characters, labels separated by dots. */
  predicate ValidNodeName(s: string) {
    0 < |s| <= 253 && forall k | 0 <= k < |Split(s, '.')| :: IsNodeLabel(Split(s, '.')[k])
  }

  /** The entity the agent works on. Only the parts later components read are kept. */
  datatype NetworkInterface = NetworkInterface(
    id: nat, mac: string, address: string, cidr: string, mtu: nat, name: string, explicitName: bool)
}

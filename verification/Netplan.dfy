/** The persisted configuration: what Configure writes and what drift detection reads back. */
module Netplan {
  import opened Text
  import opened Entities
  import opened IPv4

  datatype Options = Options(policyRouting: bool, tableBase: int, metricBase: int)

  /** Options.normalize. */
  function Normalize(o: Options): Options {
    Options(o.policyRouting,
            if o.tableBase <= 0 then 100 else o.tableBase,
            if o.metricBase <= 0 then 100 else o.metricBase)
  }

  datatype Route = Route(to: string, table: int, metric: int)
  datatype Rule = Rule(from: string, table: int)

  /** An entry under `ethernets`; an absent mtu reads as 0. */
  datatype Ethernet = Ethernet(
    mac: string, setName: string, addresses: seq<string>, mtu: int, routes: seq<Route>, rules: seq<Rule>)

  /** strconv.Atoi. */
  function Atoi(s: string): Option<int> {
    var signed := s != "" && (s[0] == '-' || s[0] == '+');
    var digits := if signed then s[1..] else s;
    if digits == "" || !AllDigits(digits) then None
    else
      var n: int := Value(digits);
      var v: int := if signed && s[0] == '-' then -n else n;
      if -MAX_INT64 - 1 <= v <= MAX_INT64 then Some(v) else None
  }

  /** extractInterfaceIndex: 0 when there is no readable index. */
  function Index(name: string): int {
    if HasPrefix(name, PREFIX) && Atoi(name[|PREFIX|..]).Some? then Atoi(name[|PREFIX|..]).value else 0
  }

  function Table(o: Options, name: string): int { Normalize(o).tableBase + Index(name) }

  function Metric(o: Options, name: string): int { Normalize(o).metricBase + Index(name) }

  /** For an accepted name the file and routing code reads the index the entity has. */
  lemma IndexOfValidName(name: string)
    requires ValidName(name)
    ensures Index(name) == NewInterfaceName(name).index
  {
  }

  /** Two accepted names share a routing table exactly when they have the same index; for canonical
      names that means they are the same name. */
  lemma TableSharedIff(o: Options, a: string, b: string)
    requires ValidName(a) && ValidName(b)
    ensures Table(o, a) == Table(o, b) <==> NewInterfaceName(a).index == NewInterfaceName(b).index
    ensures Canonical(a) && Canonical(b) ==> (Table(o, a) == Table(o, b) <==> a == b)
    ensures 0 < Table(o, a) < Normalize(o).tableBase + MAX_INTERFACES
  {
  }

  /** "multinic05" and "multinic5" are different names on the same table. */
  lemma PaddedNameSharesTable(o: Options)
    ensures ValidName("multinic05") && ValidName("multinic5")
    ensures Table(o, "multinic05") == Table(o, "multinic5")
  {
    assert "multinic05"[8..] == "05" && "multinic5"[8..] == "5";
    assert "05"[..1] == "0" && "0"[..0] == "" && "5"[..0] == "";
    assert Value("05") == 5 && Value("5") == 5;
    assert HasPrefix("multinic05", PREFIX) && HasPrefix("multinic5", PREFIX);
    TableSharedIff(o, "multinic05", "multinic5");
  }

  /** The numbers: a positive base is kept, any other becomes 100, and the index is added. */
  lemma TableNumbers(o: Options, name: string)
    requires ValidName(name)
    ensures Table(o, name) == (if o.tableBase > 0 then o.tableBase else 100) + NewInterfaceName(name).index
    ensures Metric(o, name) == (if o.metricBase > 0 then o.metricBase else 100) + NewInterfaceName(name).index
  {
    IndexOfValidName(name);
  }

  // ----------------------------------------------------------------- writer

  function Written(iface: NetworkInterface, o: Options, name: string): Ethernet {
    var parts := Split(iface.cidr, '/');
    if iface.address == "" || iface.cidr == "" || |parts| != 2 then Ethernet(iface.mac, name, [], 0, [], [])
    else
      var full := iface.address + "/" + parts[1];
      Ethernet(iface.mac, name, [full], iface.mtu,
               if o.policyRouting then [Route(iface.cidr, Table(o, name), Metric(o, name))] else [],
               if o.policyRouting then [Rule(full, Table(o, name))] else [])
  }

  /** generateNetplanConfig fills the entry step by step and files it under its name. */
  method GenerateNetplanConfig(
      iface: NetworkInterface, o: Options, name: string) returns (ethernets: map<string, Ethernet>)
    ensures ethernets == map[name := Written(iface, o, name)]
  {
    var eth := Ethernet(iface.mac, "", [], 0, [], []);
    eth := eth.(setName := name);
    if iface.address != "" && iface.cidr != "" {
      var parts := Split(iface.cidr, '/');
      if |parts| == 2 {
        var prefix := parts[1];
        eth := eth.(addresses := [iface.address + "/" + prefix]);
        if iface.mtu > 0 {
          eth := eth.(mtu := iface.mtu);
        }
        if o.policyRouting {
          var table := Table(o, name);
          eth := eth.(routes := [Route(iface.cidr, table, Metric(o, name))]);
          eth := eth.(rules := [Rule(iface.address + "/" + prefix, table)]);
        }
      }
    }
    ethernets := map[name := eth];
  }

  /** The routing tables an entry refers to. */
  function TablesOf(eth: Ethernet): set<int> {
    (set r | r in eth.routes :: r.table) + (set r | r in eth.rules :: r.table)
  }

  /** With policy routing the entry sends what comes from its own address to a table of its own, which
      holds the one route to its CIDR; without, it has no routes and rules. It renames the device to
      the name it is filed under and matches its MAC. */
  lemma WrittenRouting(iface: NetworkInterface, o: Options, name: string)
    requires ValidV4(iface)
    ensures var eth := Written(iface, o, name);
            && eth.setName == name && eth.mac == iface.mac && |eth.addresses| == 1
            && (o.policyRouting ==>
                  && |eth.rules| == 1 && eth.rules[0].from == eth.addresses[0]
                  && |eth.routes| == 1 && eth.routes[0].to == iface.cidr && eth.routes[0].metric == Metric(o, name)
                  && TablesOf(eth) == {Table(o, name)})
            && (!o.policyRouting ==> eth.rules == [] && eth.routes == [])
  {
    ReadBackOfWritten(iface, o, name);
    var eth := Written(iface, o, name);
    if o.policyRouting {
      assert eth.routes[0] in eth.routes && eth.rules[0] in eth.rules;
    }
  }

  /** The files of two interfaces with different indices share no table. */
  lemma FilesShareNoTable(a: NetworkInterface, x: string, b: NetworkInterface, y: string, o: Options)
    requires ValidV4(a) && ValidV4(b) && ValidName(x) && ValidName(y)
    requires NewInterfaceName(x).index != NewInterfaceName(y).index
    ensures TablesOf(Written(a, o, x)) !! TablesOf(Written(b, o, y))
  {
    WrittenRouting(a, o, x);
    WrittenRouting(b, o, y);
    TableSharedIff(o, x, y);
  }

  // ----------------------------------------------------------------- reader

  datatype FileConfig = FileConfig(mac: string, address: string, cidr: string, mtu: int, hasAddresses: bool)

  const NO_CONFIG := FileConfig("", "", "", 0, false)

  function ReadBack(eth: Ethernet): FileConfig {
    if eth.addresses == [] then FileConfig(eth.mac, "", "", eth.mtu, false)
    else
      match ParseCidr(eth.addresses[0])
      case Some(p) =>
        var network := Prefix(Network(p.base, p.bits), p.bits);
        FileConfig(eth.mac, AddressText(p.base), CidrText(network), eth.mtu, true)
      case None => FileConfig(eth.mac, eth.addresses[0], "", eth.mtu, true)
  }

  /** extractNetplanConfig: the first entry that the iteration yields. */
  method ExtractNetplanConfig(ethernets: map<string, Ethernet>) returns (config: FileConfig)
    ensures ethernets == map[] ==> config == NO_CONFIG
    ensures ethernets != map[] ==> exists k :: k in ethernets && config == ReadBack(ethernets[k])
  {
    config := NO_CONFIG;
    var todo := ethernets.Keys;
    if todo != {} {
      var k :| k in todo;
      var eth := ethernets[k];
      config := config.(mac := eth.mac, hasAddresses := |eth.addresses| > 0, mtu := eth.mtu);
      if config.hasAddresses {
        var parsed := ParseCidr(eth.addresses[0]);
        if parsed.Some? {
          var p := parsed.value;
          config := config.(address := AddressText(p.base), cidr := CidrText(Prefix(Network(p.base, p.bits), p.bits)));
        } else {
          config := config.(address := eth.addresses[0], cidr := "");
        }
      }
      assert config == ReadBack(ethernets[k]);
    }
  }

  /** The file half of IsNetplanDrift: the MAC comparison and checkConfigDrift. */
  predicate FileDrift(iface: NetworkInterface, file: FileConfig) {
    || file.mac != iface.mac
    || (!file.hasAddresses && iface.address != "")
    || iface.address != file.address
    || iface.cidr != file.cidr
    || iface.mtu != file.mtu
  }

  // ------------------------------------------------------------- round trip

  /** The constructor's check of address and CIDR on IPv4 texts. */
  predicate V4Accepts(address: string, cidr: string) {
    && ParseAddress(address).Some? && ParseCidr(cidr).Some?
    && Covers(ParseCidr(cidr).value, ParseAddress(address).value)
  }

  predicate ValidV4(iface: NetworkInterface) { V4Accepts(iface.address, iface.cidr) }

  /** The canonical spelling of a CIDR: no host bits, no padding of the length. */
  predicate CanonicalCidr(cidr: string) {
    && ParseCidr(cidr).Some?
    && var p := ParseCidr(cidr).value;
       var length := Split(cidr, '/')[1];
       Number(p.base) % Block(p.bits) == 0 && (|length| == 1 || length[0] != '0')
  }

  lemma SplitCidr(address: string, length: string)
    requires ParseAddress(address).Some? && IsLength(length)
    ensures Split(address + "/" + length, '/') == [address, length]
    ensures ParseCidr(address + "/" + length) == Some(Prefix(ParseAddress(address).value, Value(length)))
  {
    AddressTextUnique(address);
    AddressRoundTrip(ParseAddress(address).value);
    SplitFirst(address, length, '/');
    SplitWhole(length, '/');
  }

  /** Canonical texts are exactly those that are printed for the network they denote. */
  lemma CanonicalCidrIff(cidr: string)
    requires ParseCidr(cidr).Some?
    ensures var p := ParseCidr(cidr).value;
            CanonicalCidr(cidr) <==> cidr == CidrText(Prefix(Network(p.base, p.bits), p.bits))
  {
    var p := ParseCidr(cidr).value;
    var parts := Split(cidr, '/');
    var net := Network(p.base, p.bits);
    JoinSplit(cidr, '/');
    assert Join(parts[1..], '/') == parts[1];
    assert cidr == parts[0] + "/" + parts[1];
    AddressTextUnique(parts[0]);
    AddressRoundTrip(net);
    DecimalRoundTrip(p.bits);
    SplitCidr(AddressText(net), Decimal(p.bits));
    NetworkRoundsDown(p.base, p.bits);
    if CanonicalCidr(cidr) {
      NumberInjective(net, p.base);
      CanonicalDigits(parts[1]);
    }
    if cidr == CidrText(Prefix(net, p.bits)) {
      assert parts[0] == AddressText(net) && parts[1] == Decimal(p.bits);
      assert net == p.base;
    }
  }

  /** What is read back of a valid interface: everything as written, the CIDR in canonical form. */
  lemma ReadBackOfWritten(a: NetworkInterface, o: Options, name: string)
    requires ValidV4(a)
    ensures var p := ParseCidr(a.cidr).value;
            ReadBack(Written(a, o, name)) ==
            FileConfig(a.mac, a.address, CidrText(Prefix(Network(p.base, p.bits), p.bits)), a.mtu, true)
  {
    SplitCidr(a.address, Split(a.cidr, '/')[1]);
    AddressTextUnique(a.address);
    assert a.address != "" && a.cidr != "" by {
      SplitWhole("", '.');
      SplitWhole("", '/');
    }
  }

  /** A file without an address, or with one that does not parse, shows drift to every interface
      with an address and a CIDR. */
  lemma MalformedFileDrifts(iface: NetworkInterface, eth: Ethernet)
    requires iface.address != "" && iface.cidr != ""
    requires eth.addresses == [] || ParseCidr(eth.addresses[0]).None?
    ensures FileDrift(iface, ReadBack(eth))
  {
  }

  /** Drift detection is sound and complete for what was written: comparing interface b with the
      file of interface a reports no drift exactly when MAC, address and MTU agree and b spells the
      canonical form of a's network. */
  lemma NoDriftIff(a: NetworkInterface, b: NetworkInterface, o: Options, name: string)
    requires ValidV4(a)
    ensures var p := ParseCidr(a.cidr).value;
            !FileDrift(b, ReadBack(Written(a, o, name))) <==>
            (b.mac == a.mac && b.address == a.address && b.mtu == a.mtu
             && b.cidr == CidrText(Prefix(Network(p.base, p.bits), p.bits)))
  {
    ReadBackOfWritten(a, o, name);
  }

  /** The file just written shows no drift exactly when the resource spells its CIDR canonically. */
  lemma RoundTripIff(iface: NetworkInterface, o: Options, name: string)
    requires ValidV4(iface)
    ensures !FileDrift(iface, ReadBack(Written(iface, o, name))) <==> CanonicalCidr(iface.cidr)
  {
    NoDriftIff(iface, iface, o, name);
    CanonicalCidrIff(iface.cidr);
  }

  /** An interface whose CIDR is its own address with a length is valid, and the file just written
      for it shows drift whenever the address has host bits. */
  lemma HostBitsDrift(v: Address, n: nat, iface: NetworkInterface, o: Options, name: string)
    requires n <= 32 && iface.address == AddressText(v) && iface.cidr == CidrText(Prefix(v, n))
    ensures ValidV4(iface)
    ensures FileDrift(iface, ReadBack(Written(iface, o, name))) <==> Number(v) % Block(n) != 0
  {
    AddressRoundTrip(v);
    DecimalRoundTrip(n);
    SplitCidr(AddressText(v), Decimal(n));
    RoundTripIff(iface, o, name);
    if n < 10 {
      assert |Decimal(n)| == 1;
    }
  }

  /** 10.0.0.5/24 as CIDR of 10.0.0.5 is accepted, and its file always shows drift. */
  lemma DriftExample(mac: string, mtu: nat, o: Options)
    ensures var v := Address(10, 0, 0, 5);
            var iface := NetworkInterface(1, mac, AddressText(v), CidrText(Prefix(v, 24)), mtu, CanonicalName(1), true);
            ValidV4(iface) && FileDrift(iface, ReadBack(Written(iface, o, CanonicalName(1))))
  {
    var v := Address(10, 0, 0, 5);
    var iface := NetworkInterface(1, mac, AddressText(v), CidrText(Prefix(v, 24)), mtu, CanonicalName(1), true);
    Pow2Bytes();
    assert Block(24) == 256 && Number(v) % 256 == 5;
    HostBitsDrift(v, 24, iface, o, CanonicalName(1));
  }

  /** A zero in front of the length is accepted, and the file then always shows drift. */
  lemma PaddedLengthDrifts(v: Address, n: nat, iface: NetworkInterface, o: Options, name: string)
    requires n <= 32 && iface.address == AddressText(v) && iface.cidr == AddressText(v) + "/" + ("0" + Decimal(n))
    ensures ValidV4(iface) && FileDrift(iface, ReadBack(Written(iface, o, name)))
  {
    AddressRoundTrip(v);
    DecimalRoundTrip(n);
    LeadingZero(Decimal(n));
    SplitCidr(AddressText(v), "0" + Decimal(n));
    RoundTripIff(iface, o, name);
  }

  /** Writing and then reading through the two methods' contracts. */
  method WriteThenRead(iface: NetworkInterface, o: Options, name: string) returns (drift: bool)
    requires ValidV4(iface)
    ensures drift <==> !CanonicalCidr(iface.cidr)
  {
    var ethernets := GenerateNetplanConfig(iface, o, name);
    assert name in ethernets;
    var config := ExtractNetplanConfig(ethernets);
    RoundTripIff(iface, o, name);
    drift := FileDrift(iface, config);
  }
}

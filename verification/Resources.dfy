/** What follows for the files and routing tables of the interfaces the allocator names, and for the
    files of the interfaces the agent loads. */
module Resources {
  import opened Entities
  import opened Naming
  import opened NamingTheorems
  import opened NamingUnique
  import opened Netplan
  import opened Cleanup
  import opened Loader

  /** Two MACs with a name each have different indices, routing tables and files. */
  ghost predicate Apart(o: Options, a: string, b: string) {
    Index(a) != Index(b) && Table(o, a) != Table(o, b) && FileName(a) != FileName(b)
  }

  lemma CanonicalNamesApart(o: Options, a: string, b: string)
    requires Canonical(a) && Canonical(b) && a != b
    ensures Apart(o, a, b)
  {
    TableSharedIff(o, a, b);
    ValidNameIsNameLike(a);
    ValidNameIsNameLike(b);
    if FileName(a) == FileName(b) {
      FileNameInjective(a, b);
    }
  }

  /** Over every sequence of calls on a new allocator whose explicit names are canonical and, at
      their time, distinct and new: different MACs never share an index, a table or a file. */
  lemma NamedMacsShareNothing(calls: seq<Call>, o: Options, m: string, n: string)
    requires AllAgree(FRESH, calls) && AllDistinct(FRESH, calls)
    requires forall k | 0 <= k < |calls| && calls[k].ReserveCall? :: ExplicitCanonical(calls[k].ifaces)
    requires m != n && m in AfterAll(FRESH, calls).byMac && n in AfterAll(FRESH, calls).byMac
    ensures Apart(o, AfterAll(FRESH, calls).byMac[m], AfterAll(FRESH, calls).byMac[n])
  {
    CallsUniqueIff(FRESH, calls);
    CallsKeepCanonical(FRESH, calls);
    CanonicalNamesApart(o, AfterAll(FRESH, calls).byMac[m], AfterAll(FRESH, calls).byMac[n]);
  }

  /** Every interface loaded under the IPv4 checks meets the hypothesis of the round trip: the file
      written for it shows no drift exactly when its entry spells the CIDR canonically. */
  lemma LoadedFilesRoundTripIff(spec: seq<SpecEntry>, nodeName: string, k: nat, o: Options, name: string)
    requires k < |Kept(spec, Checks(nodeName, V4Accepts))|
    ensures var ck := Checks(nodeName, V4Accepts);
            var iface := LoadedAt(spec, ck, k);
            && ValidV4(iface)
            && (!FileDrift(iface, ReadBack(Written(iface, o, name))) <==> CanonicalCidr(spec[Kept(spec, ck)[k]].cidr))
  {
    var ck := Checks(nodeName, V4Accepts);
    var iface, e := LoadedAt(spec, ck, k), spec[Kept(spec, ck)[k]];
    assert iface.address == e.address && iface.cidr == e.cidr && V4Accepts(e.address, e.cidr);
    RoundTripIff(iface, o, name);
  }
}

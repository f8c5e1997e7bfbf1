/** When the allocator's names are unique, agree with the system and are canonical, over every
    sequence of reservations and lazy requests. */
module NamingUnique {
  import opened Text
  import opened Entities
  import opened Naming
  import opened NamingTheorems

  /** No two MACs share a name. */
  ghost predicate Injective(st: Alloc) {
    forall m, n | m in st.byMac && n in st.byMac && m != n :: st.byMac[m] != st.byMac[n]
  }

  /** A reserved name that exists with a readable MAC shows its owner. */
  ghost predicate Agrees(st: Alloc, sys: Sys) {
    forall m | m in st.byMac && MacOf(sys, st.byMac[m]).Some? :: ToLower(MacOf(sys, st.byMac[m]).value) == m
  }

  /** The name exists, but whose it is cannot be read. */
  predicate Blind(sys: Sys, name: string) { name in sys && MacOf(sys, name).None? }

  /** No reserved name exists with a MAC that cannot be read. */
  ghost predicate Sighted(st: Alloc, sys: Sys) { forall m | m in st.byMac :: !Blind(sys, st.byMac[m]) }

  /** The explicit names that phase 0 honours differ from each other and from the names already
      given out. Phase 0 stops at a refused entry. */
  predicate ExplicitDistinct(macs: set<string>, names: set<string>, sys: Sys, ifaces: seq<NetworkInterface>)
    decreases |ifaces|
  {
    if ifaces == [] then true
    else
      var i, m := ifaces[0], ToLower(ifaces[0].mac);
      if !i.explicitName || m in macs then ExplicitDistinct(macs, names, sys, ifaces[1..])
      else Refused(sys, i) || (i.name !in names && ExplicitDistinct(macs + {m}, names + {i.name}, sys, ifaces[1..]))
  }

  /** No explicit name that phase 0 honours is held by a device whose MAC cannot be read. */
  predicate ExplicitSighted(macs: set<string>, sys: Sys, ifaces: seq<NetworkInterface>)
    decreases |ifaces|
  {
    if ifaces == [] then true
    else
      var i, m := ifaces[0], ToLower(ifaces[0].mac);
      if !i.explicitName || m in macs then ExplicitSighted(macs, sys, ifaces[1..])
      else Refused(sys, i) || (!Blind(sys, i.name) && ExplicitSighted(macs + {m}, sys, ifaces[1..]))
  }

  /** It holds when explicit names differ wherever the MACs do and none is already given out. */
  lemma {:induction false} DistinctNamesSuffice(
      macs: set<string>, names: set<string>, sys: Sys, ifaces: seq<NetworkInterface>)
    requires forall i, j | 0 <= i < j < |ifaces| && ifaces[i].explicitName && ifaces[j].explicitName ::
               ifaces[i].name == ifaces[j].name ==> EqualFold(ifaces[i].mac, ifaces[j].mac)
    requires forall i | 0 <= i < |ifaces| && ifaces[i].explicitName ::
               ToLower(ifaces[i].mac) in macs || ifaces[i].name !in names
    ensures ExplicitDistinct(macs, names, sys, ifaces)
    decreases |ifaces|
  {
    if ifaces != [] {
      var i := ifaces[0];
      var m := ToLower(i.mac);
      var rest := ifaces[1..];
      assert forall k | 0 <= k < |rest| :: rest[k] == ifaces[k + 1];
      if !i.explicitName || m in macs {
        DistinctNamesSuffice(macs, names, sys, rest);
      } else {
        DistinctNamesSuffice(macs + {m}, names + {i.name}, sys, rest);
      }
    }
  }

  /** Two MACs that share a name share it for good. */
  lemma ClashPersists(st: Alloc, st': Alloc)
    requires Extends(st, st') && !Injective(st)
    ensures !Injective(st')
  {
  }

  lemma BlindPersists(st: Alloc, st': Alloc, sys: Sys)
    requires Extends(st, st') && !Sighted(st, sys)
    ensures !Sighted(st', sys)
  {
    var m :| m in st.byMac && Blind(sys, st.byMac[m]);
    assert Blind(sys, st'.byMac[m]);
  }

  lemma PutInjectiveIff(st: Alloc, m: string, name: string)
    requires Good(st) && Injective(st) && m !in st.byMac
    ensures Injective(Put(st, m, name)) <==> name !in st.names
  {
    var st' := Put(st, m, name);
    if name in st.names {
      var n :| n in st.byMac && st.byMac[n] == name;
      assert st'.byMac[n] == st'.byMac[m];
    }
  }

  lemma PutSightedIff(st: Alloc, sys: Sys, m: string, name: string)
    requires Sighted(st, sys) && m !in st.byMac
    ensures Sighted(Put(st, m, name), sys) <==> !Blind(sys, name)
  {
    var st' := Put(st, m, name);
    assert st'.byMac[m] == name;
  }

  /** Phase 0 keeps names unique exactly when the names it honours are distinct. */
  lemma {:induction false} ExplicitInjectiveIff(st: Alloc, sys: Sys, ifaces: seq<NetworkInterface>)
    requires Good(st) && Injective(st)
    ensures Injective(Explicit(st, sys, ifaces).0) <==> ExplicitDistinct(st.byMac.Keys, st.names, sys, ifaces)
    decreases |ifaces|
  {
    if ifaces != [] {
      var i, m := ifaces[0], ToLower(ifaces[0].mac);
      ConflictsIff(st, sys, i);
      if !i.explicitName || m in st.byMac {
        ExplicitInjectiveIff(st, sys, ifaces[1..]);
      } else if !Refused(sys, i) {
        var st1 := Put(st, m, i.name);
        PutKeepsGood(st, i.mac, i.name);
        PutInjectiveIff(st, m, i.name);
        assert st1.byMac.Keys == st.byMac.Keys + {m};
        if i.name in st.names {
          ExplicitKeepsGood(st1, sys, ifaces[1..]);
          ClashPersists(st1, Explicit(st1, sys, ifaces[1..]).0);
        } else {
          ExplicitInjectiveIff(st1, sys, ifaces[1..]);
        }
      }
    }
  }

  lemma {:induction false} ExplicitSightedIff(st: Alloc, sys: Sys, ifaces: seq<NetworkInterface>)
    requires Good(st) && Sighted(st, sys)
    ensures Sighted(Explicit(st, sys, ifaces).0, sys) <==> ExplicitSighted(st.byMac.Keys, sys, ifaces)
    decreases |ifaces|
  {
    if ifaces != [] {
      var i, m := ifaces[0], ToLower(ifaces[0].mac);
      ConflictsIff(st, sys, i);
      if !i.explicitName || m in st.byMac {
        ExplicitSightedIff(st, sys, ifaces[1..]);
      } else if !Refused(sys, i) {
        var st1 := Put(st, m, i.name);
        PutKeepsGood(st, i.mac, i.name);
        PutSightedIff(st, sys, m, i.name);
        assert st1.byMac.Keys == st.byMac.Keys + {m};
        if Blind(sys, i.name) {
          ExplicitKeepsGood(st1, sys, ifaces[1..]);
          BlindPersists(st1, Explicit(st1, sys, ifaces[1..]).0, sys);
        } else {
          ExplicitSightedIff(st1, sys, ifaces[1..]);
        }
      }
    }
  }

  lemma {:induction false} ExplicitAgrees(st: Alloc, sys: Sys, ifaces: seq<NetworkInterface>)
    requires Agrees(st, sys)
    ensures Agrees(Explicit(st, sys, ifaces).0, sys)
    decreases |ifaces|
  {
    if ifaces != [] {
      var i := ifaces[0];
      if !i.explicitName || ToLower(i.mac) in st.byMac {
        ExplicitAgrees(st, sys, ifaces[1..]);
      } else if !Conflicts(st, sys, i) && ValidName(i.name) {
        ExplicitAgrees(Put(st, ToLower(i.mac), i.name), sys, ifaces[1..]);
      }
    }
  }

  /** Entries taken over by phases 1 and 2 and by lazy requests are harmless: the name shows this
      MAC, or it neither exists nor is reserved. */
  predicate Harmless(st: Alloc, sys: Sys, m: string, name: string) {
    (MacOf(sys, name).Some? && ToLower(MacOf(sys, name).value) == m) || !Taken(st, sys, name)
  }

  /** What such an entry keeps, and what it cannot repair. */
  ghost predicate SameQuality(st: Alloc, st': Alloc, sys: Sys) {
    && Extends(st, st') && Agrees(st', sys)
    && (Injective(st') <==> Injective(st)) && (Sighted(st', sys) <==> Sighted(st, sys))
  }

  lemma PutKeepsClashes(st: Alloc, sys: Sys, m: string, name: string)
    requires Good(st) && Agrees(st, sys) && m !in st.byMac && Harmless(st, sys, m, name)
    ensures Injective(Put(st, m, name)) <==> Injective(st)
  {
    if Injective(st) {
      PutInjectiveIff(st, m, name);
    } else {
      ClashPersists(st, Put(st, m, name));
    }
  }

  lemma PutKeepsQuality(st: Alloc, sys: Sys, m: string, name: string)
    requires Good(st) && Agrees(st, sys) && m !in st.byMac && Harmless(st, sys, m, name)
    ensures SameQuality(st, Put(st, m, name), sys)
  {
    var st' := Put(st, m, name);
    PutKeepsClashes(st, sys, m, name);
    if !Sighted(st, sys) {
      BlindPersists(st, st', sys);
    } else {
      PutSightedIff(st, sys, m, name);
    }
  }

  lemma QualityChains(st: Alloc, st1: Alloc, st2: Alloc, sys: Sys)
    requires SameQuality(st, st1, sys) && SameQuality(st1, st2, sys)
    ensures SameQuality(st, st2, sys)
  {
  }

  lemma {:induction false} ReuseKeepsQuality(st: Alloc, sys: Sys, ifaces: seq<NetworkInterface>, i: nat)
    requires Good(st) && Agrees(st, sys)
    ensures SameQuality(st, Reuse(st, sys, ifaces, i), sys)
    decreases MAX_INTERFACES - i
  {
    if i < MAX_INTERFACES {
      var st1 := ReuseOne(st, sys, ifaces, CanonicalName(i));
      ReuseOneKeepsGood(st, sys, ifaces, i);
      ReuseOneKeepsQuality(st, sys, ifaces, i);
      ReuseKeepsQuality(st1, sys, ifaces, i + 1);
      QualityChains(st, st1, Reuse(st1, sys, ifaces, i + 1), sys);
    }
  }

  lemma ReuseOneKeepsQuality(st: Alloc, sys: Sys, ifaces: seq<NetworkInterface>, i: nat)
    requires Good(st) && Agrees(st, sys)
    ensures SameQuality(st, ReuseOne(st, sys, ifaces, CanonicalName(i)), sys)
  {
    if ReuseOne(st, sys, ifaces, CanonicalName(i)) != st {
      PutKeepsQuality(st, sys, ToLower(MacOf(sys, CanonicalName(i)).value), CanonicalName(i));
    }
  }

  lemma {:induction false} AssignKeepsQuality(st: Alloc, sys: Sys, ifaces: seq<NetworkInterface>)
    requires Good(st) && Agrees(st, sys)
    ensures SameQuality(st, Assign(st, sys, ifaces).0, sys)
    decreases |ifaces|
  {
    if ifaces != [] {
      var mac, free := ToLower(ifaces[0].mac), FirstFree(st, sys, 0);
      if mac in st.byMac {
        AssignKeepsQuality(st, sys, ifaces[1..]);
      } else if free.Some? {
        FirstFreeIsFree(st, sys, 0);
        CanonicalNameParses(free.value);
        PutKeepsGood(st, ifaces[0].mac, CanonicalName(free.value));
        PutKeepsQuality(st, sys, mac, CanonicalName(free.value));
        AssignKeepsQuality(Put(st, mac, CanonicalName(free.value)), sys, ifaces[1..]);
      }
    }
  }

  /** A lazy request leaves uniqueness, agreement and sight as they were. */
  lemma GenerateKeepsQuality(st: Alloc, sys: Sys, mac: string)
    requires Good(st) && Agrees(st, sys)
    ensures SameQuality(st, Generate(st, sys, mac).0, sys)
  {
    var own, free := OwnIndex(st, sys, mac, 0), FirstFree(st, sys, 0);
    OwnIndexIsOwn(st, sys, mac, 0);
    FirstFreeIsFree(st, sys, 0);
    var i := if own.Some? then own else free;
    if ToLower(mac) !in st.byMac && i.Some? {
      PutKeepsQuality(st, sys, ToLower(mac), CanonicalName(i.value));
    }
  }

  lemma ReserveKeepsQuality(st: Alloc, sys: Sys, ifaces: seq<NetworkInterface>)
    requires Good(st) && Agrees(st, sys)
    ensures SameQuality(Explicit(st, sys, ifaces).0, Reserve(st, sys, ifaces).0, sys)
  {
    var (st0, ok) := Explicit(st, sys, ifaces);
    ExplicitKeepsGood(st, sys, ifaces);
    ExplicitAgrees(st, sys, ifaces);
    if ok {
      ReuseKeepsGood(st0, sys, ifaces, 0);
      ReuseKeepsQuality(st0, sys, ifaces, 0);
      AssignKeepsQuality(Reuse(st0, sys, ifaces, 0), sys, ifaces);
    }
  }

  /** A reservation on any state, successful or not, agrees with the system; it keeps names unique
      exactly when the explicit names it honours are distinct and new. */
  lemma ReserveUniqueIff(st: Alloc, sys: Sys, ifaces: seq<NetworkInterface>)
    requires Good(st) && Injective(st) && Agrees(st, sys)
    ensures Agrees(Reserve(st, sys, ifaces).0, sys)
    ensures Injective(Reserve(st, sys, ifaces).0) <==> ExplicitDistinct(st.byMac.Keys, st.names, sys, ifaces)
  {
    ReserveKeepsQuality(st, sys, ifaces);
    ExplicitInjectiveIff(st, sys, ifaces);
  }

  /** It reserves no name of a device with an unreadable MAC exactly when no explicit name it
      honours is one. */
  lemma ReserveSightedIff(st: Alloc, sys: Sys, ifaces: seq<NetworkInterface>)
    requires Good(st) && Agrees(st, sys) && Sighted(st, sys)
    ensures Sighted(Reserve(st, sys, ifaces).0, sys) <==> ExplicitSighted(st.byMac.Keys, sys, ifaces)
  {
    ReserveKeepsQuality(st, sys, ifaces);
    ExplicitSightedIff(st, sys, ifaces);
  }

  // -------------------------------------------------- over sequences of calls

  /** Every snapshot agrees with the reservations at the time of its call. */
  ghost predicate AllAgree(st: Alloc, calls: seq<Call>)
    decreases |calls|
  {
    calls == [] || (Agrees(st, calls[0].sys) && AllAgree(After(st, calls[0]), calls[1..]))
  }

  /** Every reservation in the sequence honours names that are distinct and new at its time. */
  predicate AllDistinct(st: Alloc, calls: seq<Call>)
    decreases |calls|
  {
    calls == [] ||
    (var c := calls[0];
     && (c.ReserveCall? ==> ExplicitDistinct(st.byMac.Keys, st.names, c.sys, c.ifaces))
     && AllDistinct(After(st, c), calls[1..]))
  }

  lemma {:induction false} CallsUniqueIff(st: Alloc, calls: seq<Call>)
    requires Good(st) && Injective(st) && AllAgree(st, calls)
    ensures Injective(AfterAll(st, calls)) <==> AllDistinct(st, calls)
    decreases |calls|
  {
    if calls != [] {
      var c, st' := calls[0], After(st, calls[0]);
      if c.ReserveCall? {
        ReserveKeepsGood(st, c.sys, c.ifaces);
        ReserveUniqueIff(st, c.sys, c.ifaces);
      } else {
        GenerateKeepsGood(st, c.sys, c.mac);
        GenerateKeepsQuality(st, c.sys, c.mac);
      }
      if Injective(st') {
        CallsUniqueIff(st', calls[1..]);
      } else {
        CallsKeepGood(st', calls[1..]);
        ClashPersists(st', AfterAll(st', calls[1..]));
      }
    }
  }

  // --------------------------------------------------------- canonical names

  ghost predicate AllCanonical(st: Alloc) { forall m | m in st.byMac :: Canonical(st.byMac[m]) }

  predicate ExplicitCanonical(ifaces: seq<NetworkInterface>) {
    forall k | 0 <= k < |ifaces| && ifaces[k].explicitName && ValidName(ifaces[k].name) :: Canonical(ifaces[k].name)
  }

  lemma {:induction false} ExplicitKeepsCanonical(st: Alloc, sys: Sys, ifaces: seq<NetworkInterface>)
    requires AllCanonical(st) && ExplicitCanonical(ifaces)
    ensures AllCanonical(Explicit(st, sys, ifaces).0)
    decreases |ifaces|
  {
    if ifaces != [] {
      var i, rest := ifaces[0], ifaces[1..];
      assert forall k | 0 <= k < |rest| :: rest[k] == ifaces[k + 1];
      if !i.explicitName || ToLower(i.mac) in st.byMac {
        ExplicitKeepsCanonical(st, sys, rest);
      } else if !Conflicts(st, sys, i) && ValidName(i.name) {
        ExplicitKeepsCanonical(Put(st, ToLower(i.mac), i.name), sys, rest);
      }
    }
  }

  lemma {:induction false} ReuseKeepsCanonical(st: Alloc, sys: Sys, ifaces: seq<NetworkInterface>, i: nat)
    requires AllCanonical(st)
    ensures AllCanonical(Reuse(st, sys, ifaces, i))
    decreases MAX_INTERFACES - i
  {
    if i < MAX_INTERFACES {
      CanonicalNameParses(i);
      ReuseKeepsCanonical(ReuseOne(st, sys, ifaces, CanonicalName(i)), sys, ifaces, i + 1);
    }
  }

  lemma {:induction false} AssignKeepsCanonical(st: Alloc, sys: Sys, ifaces: seq<NetworkInterface>)
    requires AllCanonical(st)
    ensures AllCanonical(Assign(st, sys, ifaces).0)
    decreases |ifaces|
  {
    if ifaces != [] {
      var mac, free := ToLower(ifaces[0].mac), FirstFree(st, sys, 0);
      FirstFreeIsFree(st, sys, 0);
      if mac in st.byMac {
        AssignKeepsCanonical(st, sys, ifaces[1..]);
      } else if free.Some? {
        CanonicalNameParses(free.value);
        AssignKeepsCanonical(Put(st, mac, CanonicalName(free.value)), sys, ifaces[1..]);
      }
    }
  }

  lemma CallKeepsCanonical(st: Alloc, c: Call)
    requires AllCanonical(st) && (c.ReserveCall? ==> ExplicitCanonical(c.ifaces))
    ensures AllCanonical(After(st, c))
  {
    if c.ReserveCall? {
      var st0 := Explicit(st, c.sys, c.ifaces).0;
      ExplicitKeepsCanonical(st, c.sys, c.ifaces);
      ReuseKeepsCanonical(st0, c.sys, c.ifaces, 0);
      AssignKeepsCanonical(Reuse(st0, c.sys, c.ifaces, 0), c.sys, c.ifaces);
    } else {
      var own, free := OwnIndex(st, c.sys, c.mac, 0), FirstFree(st, c.sys, 0);
      OwnIndexIsOwn(st, c.sys, c.mac, 0);
      FirstFreeIsFree(st, c.sys, 0);
      if own.Some? || free.Some? {
        CanonicalNameParses(if own.Some? then own.value else free.value);
      }
    }
  }

  /** With canonical explicit names every name ever given out is canonical. */
  lemma {:induction false} CallsKeepCanonical(st: Alloc, calls: seq<Call>)
    requires AllCanonical(st)
    requires forall k | 0 <= k < |calls| && calls[k].ReserveCall? :: ExplicitCanonical(calls[k].ifaces)
    ensures AllCanonical(AfterAll(st, calls))
    decreases |calls|
  {
    if calls != [] {
      assert forall k | 0 <= k < |calls| - 1 :: calls[1..][k] == calls[k + 1];
      CallKeepsCanonical(st, calls[0]);
      CallsKeepCanonical(After(st, calls[0]), calls[1..]);
    }
  }
}

/** The interface-name allocator: MAC addresses get multinic<i> names, reserved ahead of the
    parallel run and handed out again on every later request. */
module Naming {
  import opened Text
  import opened Entities

  /** What the system shows: each existing interface with its MAC, None when it cannot be read. */
  type Sys = map<string, Option<string>>

  /** GetMacAddressForInterface: an answer is never empty. */
  function MacOf(sys: Sys, name: string): (r: Option<string>)
    ensures r.Some? ==> name in sys && r.value != ""
  {
    if name in sys && sys[name] != Some("") then sys[name] else None
  }

  /** The two maps of the service: lower-case MAC to name, and the names given out. */
  datatype Alloc = Alloc(byMac: map<string, string>, names: set<string>)

  const FRESH := Alloc(map[], {})

  predicate Taken(st: Alloc, sys: Sys, name: string) { name in sys || name in st.names }

  function Put(st: Alloc, mac: string, name: string): Alloc { Alloc(st.byMac[mac := name], st.names + {name}) }

  // ------------------------------------------------------- the three phases

  /** The requested name exists and shows another MAC. */
  predicate Conflicts(st: Alloc, sys: Sys, i: NetworkInterface) {
    var mac := MacOf(sys, i.name);
    Taken(st, sys, i.name) && mac.Some? && !EqualFold(mac.value, i.mac)
  }

  /** Phase 0: explicit names first. Stops at a conflict, keeping what was reserved so far. */
  function Explicit(st: Alloc, sys: Sys, ifaces: seq<NetworkInterface>): (Alloc, bool)
    decreases |ifaces|
  {
    if ifaces == [] then (st, true)
    else
      var i := ifaces[0];
      if !i.explicitName || ToLower(i.mac) in st.byMac then Explicit(st, sys, ifaces[1..])
      else if Conflicts(st, sys, i) || !ValidName(i.name) then (st, false)
      else Explicit(Put(st, ToLower(i.mac), i.name), sys, ifaces[1..])
  }

  predicate Requested(ifaces: seq<NetworkInterface>, mac: string) {
    exists k | 0 <= k < |ifaces| :: EqualFold(ifaces[k].mac, mac)
  }

  function ReuseOne(st: Alloc, sys: Sys, ifaces: seq<NetworkInterface>, name: string): Alloc {
    var mac := MacOf(sys, name);
    if mac.Some? && ToLower(mac.value) !in st.byMac && Requested(ifaces, mac.value)
    then Put(st, ToLower(mac.value), name) else st
  }

  /** Phase 1: existing multinic<i> interfaces keep the MAC they have. */
  function Reuse(st: Alloc, sys: Sys, ifaces: seq<NetworkInterface>, i: nat): Alloc
    decreases MAX_INTERFACES - i
  {
    if i >= MAX_INTERFACES then st else Reuse(ReuseOne(st, sys, ifaces, CanonicalName(i)), sys, ifaces, i + 1)
  }

  /** The lowest index from i on whose name is not taken. */
  function FirstFree(st: Alloc, sys: Sys, i: nat): Option<nat>
    decreases MAX_INTERFACES - i
  {
    if i >= MAX_INTERFACES then None
    else if !Taken(st, sys, CanonicalName(i)) then Some(i)
    else FirstFree(st, sys, i + 1)
  }

  /** Phase 2: the lowest free name for every MAC still without one. */
  function Assign(st: Alloc, sys: Sys, ifaces: seq<NetworkInterface>): (Alloc, bool)
    decreases |ifaces|
  {
    if ifaces == [] then (st, true)
    else
      var mac := ToLower(ifaces[0].mac);
      if mac in st.byMac then Assign(st, sys, ifaces[1..])
      else
        match FirstFree(st, sys, 0)
        case None => (st, false)
        case Some(i) => Assign(Put(st, mac, CanonicalName(i)), sys, ifaces[1..])
  }

  /** ReserveNamesForInterfaces. */
  function Reserve(st: Alloc, sys: Sys, ifaces: seq<NetworkInterface>): (Alloc, bool) {
    var (st0, ok) := Explicit(st, sys, ifaces);
    if ok then Assign(Reuse(st0, sys, ifaces, 0), sys, ifaces) else (st0, false)
  }

  /** The lowest multinic<i>, from i on, that already carries this MAC. */
  function OwnIndex(st: Alloc, sys: Sys, mac: string, i: nat): Option<nat>
    decreases MAX_INTERFACES - i
  {
    if i >= MAX_INTERFACES then None
    else
      var shown := MacOf(sys, CanonicalName(i));
      if Taken(st, sys, CanonicalName(i)) && shown.Some? && EqualFold(shown.value, mac) then Some(i)
      else OwnIndex(st, sys, mac, i + 1)
  }

  /** GenerateNextNameForMAC: the reservation, else the name the MAC already has, else the lowest free one. */
  function Generate(st: Alloc, sys: Sys, mac: string): (Alloc, Option<string>) {
    var m := ToLower(mac);
    if m in st.byMac then (st, if ValidName(st.byMac[m]) then Some(st.byMac[m]) else None)
    else
      var own := OwnIndex(st, sys, mac, 0);
      var i := if own.Some? then own else FirstFree(st, sys, 0);
      if i.Some? then (Put(st, m, CanonicalName(i.value)), Some(CanonicalName(i.value))) else (st, None)
  }

  // ------------------------------------------------------------ the service

  class InterfaceNamingService {
    var reservedByMac: map<string, string>
    var reservedNames: set<string>

    ghost function State(): Alloc
      reads this
    {
      Alloc(reservedByMac, reservedNames)
    }

    constructor ()
      ensures State() == FRESH
    {
      reservedByMac, reservedNames := map[], {};
    }

    method LowestFree(sys: Sys) returns (found: Option<nat>)
      ensures found == FirstFree(State(), sys, 0)
    {
      var i := 0;
      while i < MAX_INTERFACES
        invariant i <= MAX_INTERFACES
        invariant FirstFree(State(), sys, 0) == FirstFree(State(), sys, i)
      {
        var name := CanonicalName(i);
        if name !in sys && name !in reservedNames {
          return Some(i);
        }
        i := i + 1;
      }
      return None;
    }

    method GenerateNextNameForMAC(sys: Sys, mac: string) returns (name: Option<string>)
      modifies this
      ensures (State(), name) == Generate(old(State()), sys, mac)
    {
      var m := ToLower(mac);
      if m in reservedByMac {
        return if ValidName(reservedByMac[m]) then Some(reservedByMac[m]) else None;
      }
      var i := 0;
      while i < MAX_INTERFACES
        invariant i <= MAX_INTERFACES
        invariant State() == old(State())
        invariant OwnIndex(State(), sys, mac, 0) == OwnIndex(State(), sys, mac, i)
      {
        var candidate := CanonicalName(i);
        if candidate in sys || candidate in reservedNames {
          var shown := MacOf(sys, candidate);
          if shown.Some? && EqualFold(shown.value, mac) {
            reservedByMac := reservedByMac[m := candidate];
            reservedNames := reservedNames + {candidate};
            return Some(candidate);
          }
        }
        i := i + 1;
      }
      var free := LowestFree(sys);
      if free.None? {
        return None;
      }
      reservedByMac := reservedByMac[m := CanonicalName(free.value)];
      reservedNames := reservedNames + {CanonicalName(free.value)};
      return Some(CanonicalName(free.value));
    }

    method ReserveExplicit(sys: Sys, ifaces: seq<NetworkInterface>) returns (ok: bool)
      modifies this
      ensures (State(), ok) == Explicit(old(State()), sys, ifaces)
    {
      var k := 0;
      while k < |ifaces|
        invariant k <= |ifaces|
        invariant Explicit(State(), sys, ifaces[k..]) == Explicit(old(State()), sys, ifaces)
      {
        var i := ifaces[k];
        var m := ToLower(i.mac);
        assert ifaces[k..][1..] == ifaces[k + 1..];
        if i.explicitName && m !in reservedByMac {
          if i.name in sys || i.name in reservedNames {
            var shown := MacOf(sys, i.name);
            if shown.Some? && !EqualFold(shown.value, i.mac) {
              return false;
            }
          }
          if !ValidName(i.name) {
            return false;
          }
          reservedByMac := reservedByMac[m := i.name];
          reservedNames := reservedNames + {i.name};
        }
        k := k + 1;
      }
      return true;
    }

    method ReuseExisting(sys: Sys, ifaces: seq<NetworkInterface>)
      modifies this
      ensures State() == Reuse(old(State()), sys, ifaces, 0)
    {
      var i := 0;
      while i < MAX_INTERFACES
        invariant i <= MAX_INTERFACES
        invariant Reuse(State(), sys, ifaces, i) == Reuse(old(State()), sys, ifaces, 0)
      {
        var name := CanonicalName(i);
        var shown := MacOf(sys, name);
        if shown.Some? {
          ReuseFor(sys, ifaces, name, shown.value);
        }
        i := i + 1;
      }
    }

    /** The inner loop of phase 1. */
    method ReuseFor(sys: Sys, ifaces: seq<NetworkInterface>, name: string, mac: string)
      requires MacOf(sys, name) == Some(mac)
      modifies this
      ensures State() == ReuseOne(old(State()), sys, ifaces, name)
    {
      var m := ToLower(mac);
      var k := 0;
      while k < |ifaces|
        invariant k <= |ifaces|
        invariant m in old(reservedByMac) ==> State() == old(State())
        invariant m !in old(reservedByMac) ==>
          State() == if exists j | 0 <= j < k :: EqualFold(ifaces[j].mac, mac) then Put(old(State()), m, name)
            else old(State())
      {
        if m !in reservedByMac && EqualFold(ifaces[k].mac, mac) {
          reservedByMac := reservedByMac[m := name];
          reservedNames := reservedNames + {name};
        }
        k := k + 1;
      }
    }

    method AssignLowest(sys: Sys, ifaces: seq<NetworkInterface>) returns (ok: bool)
      modifies this
      ensures (State(), ok) == Assign(old(State()), sys, ifaces)
    {
      var k := 0;
      while k < |ifaces|
        invariant k <= |ifaces|
        invariant Assign(State(), sys, ifaces[k..]) == Assign(old(State()), sys, ifaces)
      {
        var m := ToLower(ifaces[k].mac);
        assert ifaces[k..][1..] == ifaces[k + 1..];
        if m !in reservedByMac {
          var free := LowestFree(sys);
          if free.None? {
            return false;
          }
          reservedByMac := reservedByMac[m := CanonicalName(free.value)];
          reservedNames := reservedNames + {CanonicalName(free.value)};
        }
        k := k + 1;
      }
      return true;
    }

    /** On success `result` lists the reservations this call added. */
    method ReserveNamesForInterfaces(
        sys: Sys, ifaces: seq<NetworkInterface>) returns (ok: bool, result: map<string, string>)
      modifies this
      ensures (State(), ok) == Reserve(old(State()), sys, ifaces)
      ensures ok ==> result == map m | m in reservedByMac && m !in old(reservedByMac) :: reservedByMac[m]
    {
      result := map[];
      var before := reservedByMac;
      ok := ReserveExplicit(sys, ifaces);
      if ok {
        ReuseExisting(sys, ifaces);
        ok := AssignLowest(sys, ifaces);
        result := map m | m in reservedByMac && m !in before :: reservedByMac[m];
      }
    }
  }
}

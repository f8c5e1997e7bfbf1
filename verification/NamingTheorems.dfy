/** What the allocator guarantees over every sequence of requests. */
module NamingTheorems {
  import opened Text
  import opened Entities
  import opened Naming

  // ------------------------------------------------- invariant and stability

  /** The two maps agree, all names are valid and all keys are in lower case. */
  ghost predicate Good(st: Alloc) {
    && (forall m | m in st.byMac :: st.byMac[m] in st.names)
    && (forall n | n in st.names :: exists m :: m in st.byMac && st.byMac[m] == n)
    && (forall m | m in st.byMac :: ValidName(st.byMac[m]) && ToLower(m) == m)
  }

  /** Entries are only ever added. */
  ghost predicate Extends(st: Alloc, st': Alloc) {
    forall m | m in st.byMac :: m in st'.byMac && st'.byMac[m] == st.byMac[m]
  }

  lemma PutKeepsGood(st: Alloc, mac: string, name: string)
    requires Good(st) && ToLower(mac) !in st.byMac && ValidName(name)
    ensures Good(Put(st, ToLower(mac), name)) && Extends(st, Put(st, ToLower(mac), name))
  {
    ToLowerIdempotent(mac);
    var st' := Put(st, ToLower(mac), name);
    forall n | n in st'.names ensures exists m :: m in st'.byMac && st'.byMac[m] == n {
      if n == name {
        assert st'.byMac[ToLower(mac)] == n;
      } else {
        var m :| m in st.byMac && st.byMac[m] == n;
        assert st'.byMac[m] == n;
      }
    }
  }

  lemma {:induction false} ExplicitKeepsGood(st: Alloc, sys: Sys, ifaces: seq<NetworkInterface>)
    requires Good(st)
    ensures Good(Explicit(st, sys, ifaces).0) && Extends(st, Explicit(st, sys, ifaces).0)
    decreases |ifaces|
  {
    if ifaces != [] {
      var i := ifaces[0];
      if !i.explicitName || ToLower(i.mac) in st.byMac {
        ExplicitKeepsGood(st, sys, ifaces[1..]);
      } else if !Conflicts(st, sys, i) && ValidName(i.name) {
        PutKeepsGood(st, i.mac, i.name);
        ExplicitKeepsGood(Put(st, ToLower(i.mac), i.name), sys, ifaces[1..]);
      }
    }
  }

  lemma {:induction false} ReuseKeepsGood(st: Alloc, sys: Sys, ifaces: seq<NetworkInterface>, i: nat)
    requires Good(st)
    ensures Good(Reuse(st, sys, ifaces, i)) && Extends(st, Reuse(st, sys, ifaces, i))
    decreases MAX_INTERFACES - i
  {
    if i < MAX_INTERFACES {
      ReuseOneKeepsGood(st, sys, ifaces, i);
      ReuseKeepsGood(ReuseOne(st, sys, ifaces, CanonicalName(i)), sys, ifaces, i + 1);
    }
  }

  lemma ReuseOneKeepsGood(st: Alloc, sys: Sys, ifaces: seq<NetworkInterface>, i: nat)
    requires Good(st) && i < MAX_INTERFACES
    ensures var st1 := ReuseOne(st, sys, ifaces, CanonicalName(i)); Good(st1) && Extends(st, st1)
  {
    if ReuseOne(st, sys, ifaces, CanonicalName(i)) != st {
      CanonicalNameParses(i);
      PutKeepsGood(st, MacOf(sys, CanonicalName(i)).value, CanonicalName(i));
    }
  }

  lemma {:induction false} FirstFreeIsFree(st: Alloc, sys: Sys, i: nat)
    ensures var r := FirstFree(st, sys, i);
            r.Some? ==> i <= r.value < MAX_INTERFACES && !Taken(st, sys, CanonicalName(r.value))
    decreases MAX_INTERFACES - i
  {
    if i < MAX_INTERFACES {
      FirstFreeIsFree(st, sys, i + 1);
    }
  }

  lemma {:induction false} AssignKeepsGood(st: Alloc, sys: Sys, ifaces: seq<NetworkInterface>)
    requires Good(st)
    ensures Good(Assign(st, sys, ifaces).0) && Extends(st, Assign(st, sys, ifaces).0)
    decreases |ifaces|
  {
    if ifaces != [] {
      var mac, free := ToLower(ifaces[0].mac), FirstFree(st, sys, 0);
      if mac in st.byMac {
        AssignKeepsGood(st, sys, ifaces[1..]);
      } else if free.Some? {
        FirstFreeIsFree(st, sys, 0);
        CanonicalNameParses(free.value);
        PutKeepsGood(st, ifaces[0].mac, CanonicalName(free.value));
        AssignKeepsGood(Put(st, mac, CanonicalName(free.value)), sys, ifaces[1..]);
      }
    }
  }

  lemma ReserveKeepsGood(st: Alloc, sys: Sys, ifaces: seq<NetworkInterface>)
    requires Good(st)
    ensures Good(Reserve(st, sys, ifaces).0) && Extends(st, Reserve(st, sys, ifaces).0)
  {
    var (st0, ok) := Explicit(st, sys, ifaces);
    ExplicitKeepsGood(st, sys, ifaces);
    ReuseKeepsGood(st0, sys, ifaces, 0);
    AssignKeepsGood(Reuse(st0, sys, ifaces, 0), sys, ifaces);
  }

  lemma {:induction false} OwnIndexIsOwn(st: Alloc, sys: Sys, mac: string, i: nat)
    ensures var r := OwnIndex(st, sys, mac, i);
            r.Some? ==>
              && i <= r.value < MAX_INTERFACES && MacOf(sys, CanonicalName(r.value)).Some?
              && EqualFold(MacOf(sys, CanonicalName(r.value)).value, mac)
    decreases MAX_INTERFACES - i
  {
    if i < MAX_INTERFACES {
      OwnIndexIsOwn(st, sys, mac, i + 1);
    }
  }

  lemma GenerateKeepsGood(st: Alloc, sys: Sys, mac: string)
    requires Good(st)
    ensures var (st', name) := Generate(st, sys, mac);
            && Good(st') && Extends(st, st')
            && (name.Some? <==> ToLower(mac) in st'.byMac)
            && (name.Some? ==> st'.byMac[ToLower(mac)] == name.value)
  {
    var own, free := OwnIndex(st, sys, mac, 0), FirstFree(st, sys, 0);
    OwnIndexIsOwn(st, sys, mac, 0);
    FirstFreeIsFree(st, sys, 0);
    var i := if own.Some? then own else free;
    if ToLower(mac) !in st.byMac && i.Some? {
      CanonicalNameParses(i.value);
      PutKeepsGood(st, mac, CanonicalName(i.value));
    }
  }

  /** A call to the service together with what the system shows at that moment. */
  datatype Call = ReserveCall(sys: Sys, ifaces: seq<NetworkInterface>) | GenerateCall(sys: Sys, mac: string)

  function After(st: Alloc, c: Call): Alloc {
    match c
    case ReserveCall(sys, ifaces) => Reserve(st, sys, ifaces).0
    case GenerateCall(sys, mac) => Generate(st, sys, mac).0
  }

  function AfterAll(st: Alloc, calls: seq<Call>): Alloc
    decreases |calls|
  {
    if calls == [] then st else AfterAll(After(st, calls[0]), calls[1..])
  }

  /** Over every sequence of calls, whatever the system shows in between, the taken names are
      exactly the assigned ones, all are valid, and no entry is ever changed or removed. */
  lemma {:induction false} CallsKeepGood(st: Alloc, calls: seq<Call>)
    requires Good(st)
    ensures Good(AfterAll(st, calls)) && Extends(st, AfterAll(st, calls))
    decreases |calls|
  {
    if calls != [] {
      var c := calls[0];
      if c.ReserveCall? {
        ReserveKeepsGood(st, c.sys, c.ifaces);
      } else {
        GenerateKeepsGood(st, c.sys, c.mac);
      }
      CallsKeepGood(After(st, c), calls[1..]);
    }
  }

  /** The first request of a successful phase 2 is settled and the rest succeeds from there. */
  lemma AssignStep(st: Alloc, sys: Sys, ifaces: seq<NetworkInterface>) returns (st1: Alloc)
    requires Good(st) && ifaces != [] && Assign(st, sys, ifaces).1
    ensures Good(st1) && ToLower(ifaces[0].mac) in st1.byMac
    ensures Assign(st, sys, ifaces) == Assign(st1, sys, ifaces[1..])
  {
    var mac := ToLower(ifaces[0].mac);
    if mac in st.byMac {
      st1 := st;
    } else {
      var free := FirstFree(st, sys, 0);
      FirstFreeIsFree(st, sys, 0);
      CanonicalNameParses(free.value);
      PutKeepsGood(st, ifaces[0].mac, CanonicalName(free.value));
      st1 := Put(st, mac, CanonicalName(free.value));
    }
  }

  lemma {:induction false} AssignNamesAll(st: Alloc, sys: Sys, ifaces: seq<NetworkInterface>, k: nat)
    requires Good(st) && Assign(st, sys, ifaces).1 && k < |ifaces|
    ensures ToLower(ifaces[k].mac) in Assign(st, sys, ifaces).0.byMac
    decreases |ifaces|
  {
    var st1 := AssignStep(st, sys, ifaces);
    if k == 0 {
      AssignKeepsGood(st1, sys, ifaces[1..]);
    } else {
      AssignNamesAll(st1, sys, ifaces[1..], k - 1);
    }
  }

  /** After a successful reservation, on whatever state, every requested MAC has its name for good:
      whatever calls come in between and whatever the system shows, a request for it returns that
      name and changes nothing, so names do not depend on scheduling, retries or the after-hook. */
  lemma ReservedNameIsStable(st: Alloc, sys: Sys, ifaces: seq<NetworkInterface>, k: nat, calls: seq<Call>, later: Sys)
    requires Good(st) && Reserve(st, sys, ifaces).1 && k < |ifaces|
    ensures var st' := Reserve(st, sys, ifaces).0;
            var end := AfterAll(st', calls);
            var m := ToLower(ifaces[k].mac);
            && m in st'.byMac
            && Generate(end, later, ifaces[k].mac) == (end, Some(st'.byMac[m]))
  {
    var (st0, _) := Explicit(st, sys, ifaces);
    ExplicitKeepsGood(st, sys, ifaces);
    ReuseKeepsGood(st0, sys, ifaces, 0);
    AssignNamesAll(Reuse(st0, sys, ifaces, 0), sys, ifaces, k);
    ReserveKeepsGood(st, sys, ifaces);
    CallsKeepGood(Reserve(st, sys, ifaces).0, calls);
  }

  // ---------------------------------- phase 2: lowest free names, exhaustion

  /** The free indices from i on, in ascending order. */
  function FreeFrom(st: Alloc, sys: Sys, i: nat): seq<nat>
    decreases MAX_INTERFACES - i
  {
    if i >= MAX_INTERFACES then []
    else if Taken(st, sys, CanonicalName(i)) then FreeFrom(st, sys, i + 1)
    else [i] + FreeFrom(st, sys, i + 1)
  }

  /** The MACs without a name, in order of first occurrence, each once. */
  function Unnamed(known: set<string>, ifaces: seq<NetworkInterface>): seq<string>
    decreases |ifaces|
  {
    if ifaces == [] then []
    else
      var m := ToLower(ifaces[0].mac);
      if m in known then Unnamed(known, ifaces[1..]) else [m] + Unnamed(known + {m}, ifaces[1..])
  }

  lemma {:induction false} FreeFromSound(st: Alloc, sys: Sys, i: nat, k: nat)
    requires k < |FreeFrom(st, sys, i)|
    ensures var f := FreeFrom(st, sys, i)[k]; i <= f < MAX_INTERFACES && !Taken(st, sys, CanonicalName(f))
    decreases MAX_INTERFACES - i
  {
    if Taken(st, sys, CanonicalName(i)) {
      FreeFromSound(st, sys, i + 1, k);
    } else if k > 0 {
      FreeFromSound(st, sys, i + 1, k - 1);
    }
  }

  ghost predicate Ascending(s: seq<nat>) { forall k, l | 0 <= k < l < |s| :: s[k] < s[l] }

  ghost predicate AllFrom(i: nat, s: seq<nat>) { forall k | 0 <= k < |s| :: i <= s[k] }

  lemma AscendingCons(i: nat, s: seq<nat>)
    requires Ascending(s) && AllFrom(i + 1, s)
    ensures Ascending([i] + s) && AllFrom(i, [i] + s) && AllFrom(i, s)
  {
  }

  lemma {:induction false} FreeFromAscends(st: Alloc, sys: Sys, i: nat)
    ensures Ascending(FreeFrom(st, sys, i)) && AllFrom(i, FreeFrom(st, sys, i))
    decreases MAX_INTERFACES - i
  {
    if i < MAX_INTERFACES {
      FreeFromAscends(st, sys, i + 1);
      AscendingCons(i, FreeFrom(st, sys, i + 1));
    }
  }

  lemma {:induction false} FreeFromComplete(st: Alloc, sys: Sys, i: nat, f: nat)
    requires i <= f < MAX_INTERFACES && !Taken(st, sys, CanonicalName(f))
    ensures f in FreeFrom(st, sys, i)
    decreases MAX_INTERFACES - i
  {
    if i < f {
      FreeFromComplete(st, sys, i + 1, f);
    }
  }

  /** The free list holds exactly the indices whose names are free, in ascending order. */
  lemma FreeFromIsExact(st: Alloc, sys: Sys, i: nat)
    ensures forall k | 0 <= k < |FreeFrom(st, sys, i)| ::
              var f := FreeFrom(st, sys, i)[k]; i <= f < MAX_INTERFACES && !Taken(st, sys, CanonicalName(f))
    ensures forall k, l | 0 <= k < l < |FreeFrom(st, sys, i)| :: FreeFrom(st, sys, i)[k] < FreeFrom(st, sys, i)[l]
    ensures forall f: nat | i <= f < MAX_INTERFACES && !Taken(st, sys, CanonicalName(f)) :: f in FreeFrom(st, sys, i)
  {
    var free := FreeFrom(st, sys, i);
    forall k | 0 <= k < |free| ensures i <= free[k] < MAX_INTERFACES && !Taken(st, sys, CanonicalName(free[k])) {
      FreeFromSound(st, sys, i, k);
    }
    FreeFromAscends(st, sys, i);
    forall f: nat | i <= f < MAX_INTERFACES && !Taken(st, sys, CanonicalName(f)) ensures f in free {
      FreeFromComplete(st, sys, i, f);
    }
  }

  lemma {:induction false} FirstFreeHeadsList(st: Alloc, sys: Sys, i: nat)
    ensures FirstFree(st, sys, i) == if FreeFrom(st, sys, i) == [] then None else Some(FreeFrom(st, sys, i)[0])
    decreases MAX_INTERFACES - i
  {
    if i < MAX_INTERFACES {
      FirstFreeHeadsList(st, sys, i + 1);
    }
  }

  /** Giving out an index below i does not change the free list from i on. */
  lemma {:induction false} FreeAfterLower(st: Alloc, sys: Sys, mac: string, f: nat, i: nat)
    requires f < i
    ensures FreeFrom(Put(st, mac, CanonicalName(f)), sys, i) == FreeFrom(st, sys, i)
    decreases MAX_INTERFACES - i
  {
    if i < MAX_INTERFACES {
      if CanonicalName(f) == CanonicalName(i) {
        CanonicalNameInjective(f, i);
      }
      FreeAfterLower(st, sys, mac, f, i + 1);
    }
  }

  /** Giving out the first free index takes it off the list. */
  lemma {:induction false} FreeAfterFirst(st: Alloc, sys: Sys, mac: string, i: nat)
    requires FreeFrom(st, sys, i) != []
    ensures FreeFrom(Put(st, mac, CanonicalName(FreeFrom(st, sys, i)[0])), sys, i) == FreeFrom(st, sys, i)[1..]
    decreases MAX_INTERFACES - i
  {
    if Taken(st, sys, CanonicalName(i)) {
      FreeAfterFirst(st, sys, mac, i + 1);
    } else {
      FreeAfterLower(st, sys, mac, i, i + 1);
    }
  }

  function Least(a: nat, b: nat): nat { if a < b then a else b }

  /** The k-th MAC has the k-th free name, the old entries are there, and nothing else is. */
  ghost predicate Paired(st: Alloc, st': Alloc, macs: seq<string>, free: seq<nat>) {
    var n := Least(|macs|, |free|);
    && (forall k | 0 <= k < n :: macs[k] in st'.byMac && st'.byMac[macs[k]] == CanonicalName(free[k]))
    && Extends(st, st')
    && (forall m | m in st'.byMac :: m in st.byMac || m in macs[..n])
  }

  lemma PairedStep(st: Alloc, st': Alloc, m: string, f: nat, macs: seq<string>, free: seq<nat>)
    requires m !in st.byMac && Paired(Put(st, m, CanonicalName(f)), st', macs, free)
    ensures Paired(st, st', [m] + macs, [f] + free)
  {
    var ms, fs, n := [m] + macs, [f] + free, Least(|macs|, |free|);
    assert ms[..n + 1] == [m] + macs[..n];
    forall k | 0 <= k < n + 1 ensures ms[k] in st'.byMac && st'.byMac[ms[k]] == CanonicalName(fs[k]) {
      if k > 0 {
        assert ms[k] == macs[k - 1] && fs[k] == free[k - 1];
      }
    }
  }

  ghost predicate LowestFree(st: Alloc, sys: Sys, ifaces: seq<NetworkInterface>) {
    var (st', ok) := Assign(st, sys, ifaces);
    var macs, free := Unnamed(st.byMac.Keys, ifaces), FreeFrom(st, sys, 0);
    Paired(st, st', macs, free) && (ok <==> |macs| <= |free|)
  }

  lemma AssignOne(st: Alloc, sys: Sys, ifaces: seq<NetworkInterface>)
    requires ifaces != [] && ToLower(ifaces[0].mac) !in st.byMac && FreeFrom(st, sys, 0) != []
    requires LowestFree(Put(st, ToLower(ifaces[0].mac), CanonicalName(FreeFrom(st, sys, 0)[0])), sys, ifaces[1..])
    ensures LowestFree(st, sys, ifaces)
  {
    var m, free := ToLower(ifaces[0].mac), FreeFrom(st, sys, 0);
    var st1 := Put(st, m, CanonicalName(free[0]));
    FirstFreeHeadsList(st, sys, 0);
    FreeAfterFirst(st, sys, m, 0);
    assert st1.byMac.Keys == st.byMac.Keys + {m};
    PairedStep(st, Assign(st, sys, ifaces).0, m, free[0], Unnamed(st1.byMac.Keys, ifaces[1..]), free[1..]);
    assert free == [free[0]] + free[1..];
  }

  /** Phase 2 gives the k-th unnamed MAC the k-th smallest free index, for as many as there are
      free names, changes nothing else, and fails exactly when the free names run out. */
  lemma {:induction false} AssignIsLowestFree(st: Alloc, sys: Sys, ifaces: seq<NetworkInterface>)
    ensures LowestFree(st, sys, ifaces)
    decreases |ifaces|
  {
    if ifaces != [] {
      var m := ToLower(ifaces[0].mac);
      var free := FreeFrom(st, sys, 0);
      if m in st.byMac {
        AssignIsLowestFree(st, sys, ifaces[1..]);
      } else if free != [] {
        AssignIsLowestFree(Put(st, m, CanonicalName(free[0])), sys, ifaces[1..]);
        AssignOne(st, sys, ifaces);
      } else {
        FirstFreeHeadsList(st, sys, 0);
      }
    }
  }

  // --------------------------------------------- when a reservation fails

  /** Phase 0 refuses this explicit name: it is invalid or shown with another MAC. */
  predicate Refused(sys: Sys, i: NetworkInterface) {
    !ValidName(i.name) || (MacOf(sys, i.name).Some? && !EqualFold(MacOf(sys, i.name).value, i.mac))
  }

  /** The k-th entry is the first explicit one of a MAC without a name, and it is refused. */
  predicate RefusedAt(macs: set<string>, sys: Sys, ifaces: seq<NetworkInterface>, k: nat)
    requires k < |ifaces|
  {
    && ifaces[k].explicitName && ToLower(ifaces[k].mac) !in macs && Refused(sys, ifaces[k])
    && forall j | 0 <= j < k && ifaces[j].explicitName :: !EqualFold(ifaces[j].mac, ifaces[k].mac)
  }

  ghost predicate NoneRefused(macs: set<string>, sys: Sys, ifaces: seq<NetworkInterface>) {
    forall k | 0 <= k < |ifaces| :: !RefusedAt(macs, sys, ifaces, k)
  }

  lemma ConflictsIff(st: Alloc, sys: Sys, i: NetworkInterface)
    ensures (Conflicts(st, sys, i) || !ValidName(i.name)) <==> Refused(sys, i)
  {
  }

  /** Dropping the first entry: it was not refused, and its MAC has a name if it was explicit. */
  lemma NoneRefusedStep(macs: set<string>, sys: Sys, ifaces: seq<NetworkInterface>)
    requires ifaces != [] && !RefusedAt(macs, sys, ifaces, 0)
    ensures var macs' := if ifaces[0].explicitName then macs + {ToLower(ifaces[0].mac)} else macs;
            NoneRefused(macs, sys, ifaces) <==> NoneRefused(macs', sys, ifaces[1..])
  {
    var macs', rest := if ifaces[0].explicitName then macs + {ToLower(ifaces[0].mac)} else macs, ifaces[1..];
    forall k | 0 <= k < |rest| ensures RefusedAt(macs', sys, rest, k) <==> RefusedAt(macs, sys, ifaces, k + 1) {
      assert rest[k] == ifaces[k + 1];
      assert forall j | 0 <= j < k :: rest[j] == ifaces[j + 1];
      if RefusedAt(macs', sys, rest, k) {
        forall j | 0 <= j < k + 1 && ifaces[j].explicitName ensures !EqualFold(ifaces[j].mac, ifaces[k + 1].mac) {
          if j > 0 {
            assert rest[j - 1] == ifaces[j];
          }
        }
      }
    }
    if NoneRefused(macs', sys, rest) {
      forall k | 0 <= k < |ifaces| ensures !RefusedAt(macs, sys, ifaces, k) {
        if k > 0 {
          assert !RefusedAt(macs', sys, rest, k - 1);
        }
      }
    }
  }

  /** Phase 0 succeeds exactly when no entry of the request is refused. */
  lemma {:induction false} ExplicitOkIff(st: Alloc, sys: Sys, ifaces: seq<NetworkInterface>)
    ensures Explicit(st, sys, ifaces).1 <==> NoneRefused(st.byMac.Keys, sys, ifaces)
    decreases |ifaces|
  {
    if ifaces != [] {
      var i, m := ifaces[0], ToLower(ifaces[0].mac);
      ConflictsIff(st, sys, i);
      if RefusedAt(st.byMac.Keys, sys, ifaces, 0) {
        assert !NoneRefused(st.byMac.Keys, sys, ifaces);
      } else {
        NoneRefusedStep(st.byMac.Keys, sys, ifaces);
        if !i.explicitName || m in st.byMac {
          assert i.explicitName ==> st.byMac.Keys + {m} == st.byMac.Keys;
          ExplicitOkIff(st, sys, ifaces[1..]);
        } else {
          assert Put(st, m, i.name).byMac.Keys == st.byMac.Keys + {m};
          ExplicitOkIff(Put(st, m, i.name), sys, ifaces[1..]);
        }
      }
    }
  }

  /** The MACs that come with an explicit name. */
  function ExplicitMacs(ifaces: seq<NetworkInterface>): set<string> {
    if ifaces == [] then {}
    else (if ifaces[0].explicitName then {ToLower(ifaces[0].mac)} else {}) + ExplicitMacs(ifaces[1..])
  }

  /** The explicit names that count: the first of each MAC that has no name yet. */
  function FirstNames(macs: set<string>, ifaces: seq<NetworkInterface>): set<string>
    decreases |ifaces|
  {
    if ifaces == [] then {}
    else if ifaces[0].explicitName && ToLower(ifaces[0].mac) !in macs then
      {ifaces[0].name} + FirstNames(macs + {ToLower(ifaces[0].mac)}, ifaces[1..])
    else FirstNames(macs, ifaces[1..])
  }

  /** The requested MACs that an existing multinic<i>, from i on, shows. */
  function ShownMacs(sys: Sys, ifaces: seq<NetworkInterface>, i: nat): set<string>
    decreases MAX_INTERFACES - i
  {
    if i >= MAX_INTERFACES then {}
    else
      var mac := MacOf(sys, CanonicalName(i));
      (if mac.Some? && Requested(ifaces, mac.value) then {ToLower(mac.value)} else {}) + ShownMacs(sys, ifaces, i + 1)
  }

  lemma {:induction false} ExplicitAdds(st: Alloc, sys: Sys, ifaces: seq<NetworkInterface>)
    requires Explicit(st, sys, ifaces).1
    ensures var st' := Explicit(st, sys, ifaces).0;
            && st'.byMac.Keys == st.byMac.Keys + ExplicitMacs(ifaces)
            && st'.names == st.names + FirstNames(st.byMac.Keys, ifaces)
    decreases |ifaces|
  {
    if ifaces != [] {
      var i, m := ifaces[0], ToLower(ifaces[0].mac);
      if !i.explicitName || m in st.byMac {
        ExplicitAdds(st, sys, ifaces[1..]);
      } else {
        assert Put(st, m, i.name).byMac.Keys == st.byMac.Keys + {m};
        ExplicitAdds(Put(st, m, i.name), sys, ifaces[1..]);
      }
    }
  }

  lemma {:induction false} ReuseAdds(st: Alloc, sys: Sys, ifaces: seq<NetworkInterface>, i: nat)
    ensures var st' := Reuse(st, sys, ifaces, i);
            && st'.byMac.Keys == st.byMac.Keys + ShownMacs(sys, ifaces, i)
            && (forall n :: Taken(st', sys, n) <==> Taken(st, sys, n))
    decreases MAX_INTERFACES - i
  {
    if i < MAX_INTERFACES {
      var st1 := ReuseOne(st, sys, ifaces, CanonicalName(i));
      ReuseAdds(st1, sys, ifaces, i + 1);
    }
  }

  lemma {:induction false} FreeFromTaken(st: Alloc, st': Alloc, sys: Sys, i: nat)
    requires forall n :: Taken(st', sys, n) <==> Taken(st, sys, n)
    ensures FreeFrom(st', sys, i) == FreeFrom(st, sys, i)
    decreases MAX_INTERFACES - i
  {
    if i < MAX_INTERFACES {
      FreeFromTaken(st, st', sys, i + 1);
    }
  }

  /** The whole reservation, judged by the request and the snapshot alone: it succeeds exactly when
      no explicit name is refused and the MACs that have no name, bring none and are shown under
      none are not more than the names that neither exist nor are given out nor asked for. */
  lemma ReserveFailsIff(st: Alloc, sys: Sys, ifaces: seq<NetworkInterface>)
    ensures var known := st.byMac.Keys + ExplicitMacs(ifaces) + ShownMacs(sys, ifaces, 0);
            var used := Alloc(map[], st.names + FirstNames(st.byMac.Keys, ifaces));
            Reserve(st, sys, ifaces).1 <==>
            NoneRefused(st.byMac.Keys, sys, ifaces) && |Unnamed(known, ifaces)| <= |FreeFrom(used, sys, 0)|
  {
    ExplicitOkIff(st, sys, ifaces);
    var (st0, ok) := Explicit(st, sys, ifaces);
    if ok {
      var st1 := Reuse(st0, sys, ifaces, 0);
      ExplicitAdds(st, sys, ifaces);
      ReuseAdds(st0, sys, ifaces, 0);
      FreeFromTaken(Alloc(map[], st0.names), st1, sys, 0);
      AssignIsLowestFree(st1, sys, ifaces);
    }
  }

  // ------------------------------------------------------- who gets which name

  /** The device multinic<i> shows this MAC. */
  predicate Shows(sys: Sys, i: nat, mac: string) {
    i < MAX_INTERFACES && MacOf(sys, CanonicalName(i)).Some? && EqualFold(MacOf(sys, CanonicalName(i)).value, mac)
  }

  predicate ShowsFirst(sys: Sys, i: nat, mac: string) {
    Shows(sys, i, mac) && forall j: nat | j < i :: !Shows(sys, j, mac)
  }

  /** The name multinic<i> neither exists nor is given out. */
  predicate Free(st: Alloc, sys: Sys, i: nat) {
    i < MAX_INTERFACES && CanonicalName(i) !in sys && CanonicalName(i) !in st.names
  }

  predicate FreeFirst(st: Alloc, sys: Sys, i: nat) { Free(st, sys, i) && forall j: nat | j < i :: !Free(st, sys, j) }

  lemma {:induction false} OwnIndexShows(st: Alloc, sys: Sys, mac: string, i: nat)
    ensures var r := OwnIndex(st, sys, mac, i); r.Some? ==> i <= r.value && Shows(sys, r.value, mac)
    decreases MAX_INTERFACES - i
  {
    if i < MAX_INTERFACES {
      OwnIndexShows(st, sys, mac, i + 1);
    }
  }

  lemma {:induction false} OwnIndexAtMost(st: Alloc, sys: Sys, mac: string, i: nat, k: nat)
    requires i <= k && Shows(sys, k, mac)
    ensures var r := OwnIndex(st, sys, mac, i); r.Some? && r.value <= k
    decreases k - i
  {
    if i < k {
      OwnIndexAtMost(st, sys, mac, i + 1, k);
    }
  }

  lemma {:induction false} FirstFreeAtMost(st: Alloc, sys: Sys, i: nat, k: nat)
    requires i <= k && Free(st, sys, k)
    ensures var r := FirstFree(st, sys, i); r.Some? && r.value <= k
    decreases k - i
  {
    if i < k {
      FirstFreeAtMost(st, sys, i + 1, k);
    }
  }

  /** A MAC that some multinic<i> shows gets the lowest such name. */
  lemma GenerateOwn(st: Alloc, sys: Sys, mac: string, i: nat)
    requires ToLower(mac) !in st.byMac && ShowsFirst(sys, i, mac)
    ensures Generate(st, sys, mac).1 == Some(CanonicalName(i))
  {
    OwnIndexIs(st, sys, mac, i);
  }

  lemma OwnIndexIs(st: Alloc, sys: Sys, mac: string, i: nat)
    requires ShowsFirst(sys, i, mac)
    ensures OwnIndex(st, sys, mac, 0) == Some(i)
  {
    OwnIndexShows(st, sys, mac, 0);
    OwnIndexAtMost(st, sys, mac, 0, i);
  }

  /** A MAC that none shows gets the lowest name that neither exists nor is given out. */
  lemma GenerateLowest(st: Alloc, sys: Sys, mac: string, i: nat)
    requires ToLower(mac) !in st.byMac && (forall j: nat :: !Shows(sys, j, mac)) && FreeFirst(st, sys, i)
    ensures Generate(st, sys, mac).1 == Some(CanonicalName(i))
  {
    OwnIndexShows(st, sys, mac, 0);
    FirstFreeIsFree(st, sys, 0);
    FirstFreeAtMost(st, sys, 0, i);
    assert Free(st, sys, FirstFree(st, sys, 0).value);
  }

  /** It gets nothing exactly when no multinic<i> shows it and no name is free. */
  lemma GenerateNoneIff(st: Alloc, sys: Sys, mac: string)
    requires ToLower(mac) !in st.byMac
    ensures Generate(st, sys, mac).1.None? <==> forall i: nat :: !Shows(sys, i, mac) && !Free(st, sys, i)
  {
    var own, free := OwnIndex(st, sys, mac, 0), FirstFree(st, sys, 0);
    OwnIndexShows(st, sys, mac, 0);
    FirstFreeIsFree(st, sys, 0);
    if own.None? && free.None? {
      forall i: nat ensures !Shows(sys, i, mac) && !Free(st, sys, i) {
        if Shows(sys, i, mac) {
          OwnIndexAtMost(st, sys, mac, 0, i);
        }
        if Free(st, sys, i) {
          FirstFreeAtMost(st, sys, 0, i);
        }
      }
    } else if own.Some? {
      assert Shows(sys, own.value, mac);
    } else {
      assert Free(st, sys, free.value);
    }
  }

  /** A MAC without a reservation gets the lowest multinic<i> whose device shows it; if there is none,
      the lowest name that neither exists nor is given out; and nothing exactly when neither exists.
      The answer is the one entry added. */
  lemma GenerateAnswers(st: Alloc, sys: Sys, mac: string)
    requires ToLower(mac) !in st.byMac
    ensures var (st', name) := Generate(st, sys, mac);
            && (forall i: nat | ShowsFirst(sys, i, mac) :: name == Some(CanonicalName(i)))
            && ((forall i: nat :: !Shows(sys, i, mac)) ==>
                  forall i: nat | FreeFirst(st, sys, i) :: name == Some(CanonicalName(i)))
            && (name.None? <==> forall i: nat :: !Shows(sys, i, mac) && !Free(st, sys, i))
            && (name.None? ==> st' == st)
            && (name.Some? ==> st' == Alloc(st.byMac[ToLower(mac) := name.value], st.names + {name.value}))
  {
    var name := Generate(st, sys, mac).1;
    forall i: nat | ShowsFirst(sys, i, mac) ensures name == Some(CanonicalName(i)) {
      GenerateOwn(st, sys, mac, i);
    }
    if forall i: nat :: !Shows(sys, i, mac) {
      forall i: nat | FreeFirst(st, sys, i) ensures name == Some(CanonicalName(i)) {
        GenerateLowest(st, sys, mac, i);
      }
    }
    GenerateNoneIff(st, sys, mac);
  }

  /** The k-th entry is the first explicit one of its MAC. */
  predicate FirstExplicit(ifaces: seq<NetworkInterface>, k: nat)
    requires k < |ifaces|
  {
    ifaces[k].explicitName && forall j | 0 <= j < k
      && ifaces[j].explicitName :: !EqualFold(ifaces[j].mac, ifaces[k].mac)
  }

  lemma {:induction false} ExplicitGives(st: Alloc, sys: Sys, ifaces: seq<NetworkInterface>, k: nat)
    requires Good(st) && Explicit(st, sys, ifaces).1 && k < |ifaces| && FirstExplicit(ifaces, k)
    requires ToLower(ifaces[k].mac) !in st.byMac
    ensures var st', m := Explicit(st, sys, ifaces).0, ToLower(ifaces[k].mac);
            m in st'.byMac && st'.byMac[m] == ifaces[k].name
    decreases |ifaces|
  {
    var i, rest := ifaces[0], ifaces[1..];
    var st1 := if !i.explicitName || ToLower(i.mac) in st.byMac then st else Put(st, ToLower(i.mac), i.name);
    if st1 != st {
      PutKeepsGood(st, i.mac, i.name);
    }
    if k == 0 {
      ExplicitKeepsGood(st1, sys, rest);
    } else {
      assert rest[k - 1] == ifaces[k] && forall j | 0 <= j < k - 1 :: rest[j] == ifaces[j + 1];
      ExplicitGives(st1, sys, rest, k - 1);
    }
  }

  lemma {:induction false} ReuseGives(
      st: Alloc, sys: Sys, ifaces: seq<NetworkInterface>, mac: string, i: nat, from: nat)
    requires Good(st) && from <= i && Shows(sys, i, mac) && (forall j: nat | from <= j < i :: !Shows(sys, j, mac))
    requires ToLower(mac) !in st.byMac && Requested(ifaces, mac)
    ensures var st' := Reuse(st, sys, ifaces, from);
            ToLower(mac) in st'.byMac && st'.byMac[ToLower(mac)] == CanonicalName(i)
    decreases i - from
  {
    var st1, shown := ReuseOne(st, sys, ifaces, CanonicalName(from)), MacOf(sys, CanonicalName(from));
    ReuseOneKeepsGood(st, sys, ifaces, from);
    if from == i {
      RequestedFold(ifaces, shown.value, mac);
      ReuseKeepsGood(st1, sys, ifaces, from + 1);
    } else {
      assert !Shows(sys, from, mac);
      ReuseGives(st1, sys, ifaces, mac, i, from + 1);
    }
  }

  lemma RequestedFold(ifaces: seq<NetworkInterface>, a: string, b: string)
    requires EqualFold(a, b)
    ensures Requested(ifaces, a) <==> Requested(ifaces, b)
  {
  }

  /** A successful reservation gives an unnamed MAC the name of its first explicit entry; without
      one, the lowest multinic<i> that shows it. The rest is AssignIsLowestFree. */
  lemma ReserveGives(st: Alloc, sys: Sys, ifaces: seq<NetworkInterface>, k: nat)
    requires Good(st) && Reserve(st, sys, ifaces).1 && k < |ifaces| && ToLower(ifaces[k].mac) !in st.byMac
    ensures var st', m := Reserve(st, sys, ifaces).0, ToLower(ifaces[k].mac);
            && m in st'.byMac
            && (FirstExplicit(ifaces, k) ==> st'.byMac[m] == ifaces[k].name)
            && (m !in ExplicitMacs(ifaces) ==>
                  forall i: nat | ShowsFirst(sys, i, ifaces[k].mac) :: st'.byMac[m] == CanonicalName(i))
  {
    var (st0, _) := Explicit(st, sys, ifaces);
    var st1, mac := Reuse(st0, sys, ifaces, 0), ifaces[k].mac;
    ExplicitKeepsGood(st, sys, ifaces);
    ReuseKeepsGood(st0, sys, ifaces, 0);
    AssignKeepsGood(st1, sys, ifaces);
    AssignNamesAll(st1, sys, ifaces, k);
    if FirstExplicit(ifaces, k) {
      ExplicitGives(st, sys, ifaces, k);
    }
    ExplicitAdds(st, sys, ifaces);
    if ToLower(mac) !in ExplicitMacs(ifaces) {
      forall i: nat | ShowsFirst(sys, i, mac)
        ensures Reserve(st, sys, ifaces).0.byMac[ToLower(mac)] == CanonicalName(i)
      {
        assert Requested(ifaces, mac);
        ReuseGives(st0, sys, ifaces, mac, i, 0);
      }
    }
  }

  /** Some entry of the request has this MAC. */
  predicate Asked(ifaces: seq<NetworkInterface>, m: string) {
    exists k :: 0 <= k < |ifaces| && ToLower(ifaces[k].mac) == m
  }

  /** Every entry of st' that st does not have is for a MAC that was asked for. */
  ghost predicate AddsOnlyAsked(st: Alloc, st': Alloc, ifaces: seq<NetworkInterface>) {
    forall m | m in st'.byMac && m !in st.byMac :: Asked(ifaces, m)
  }

  lemma AskedWithin(ifaces: seq<NetworkInterface>, m: string)
    requires ifaces != []
    ensures Asked(ifaces[1..], m) ==> Asked(ifaces, m)
    ensures Asked(ifaces, ToLower(ifaces[0].mac))
  {
    if Asked(ifaces[1..], m) {
      var k :| 0 <= k < |ifaces[1..]| && ToLower(ifaces[1..][k].mac) == m;
      assert ifaces[k + 1] == ifaces[1..][k];
    }
  }

  lemma {:induction false} ExplicitAddsAsked(st: Alloc, sys: Sys, ifaces: seq<NetworkInterface>, m: string)
    requires m in Explicit(st, sys, ifaces).0.byMac && m !in st.byMac
    ensures Asked(ifaces, m)
    decreases |ifaces|
  {
    if ifaces != [] {
      var i := ifaces[0];
      AskedWithin(ifaces, m);
      if !i.explicitName || ToLower(i.mac) in st.byMac {
        ExplicitAddsAsked(st, sys, ifaces[1..], m);
      } else if m != ToLower(i.mac) {
        ExplicitAddsAsked(Put(st, ToLower(i.mac), i.name), sys, ifaces[1..], m);
      }
    }
  }

  lemma {:induction false} ReuseAddsAsked(st: Alloc, sys: Sys, ifaces: seq<NetworkInterface>, i: nat, m: string)
    requires m in Reuse(st, sys, ifaces, i).byMac && m !in st.byMac
    ensures Asked(ifaces, m)
    decreases MAX_INTERFACES - i
  {
    if i < MAX_INTERFACES {
      var st1 := ReuseOne(st, sys, ifaces, CanonicalName(i));
      if m !in st1.byMac {
        ReuseAddsAsked(st1, sys, ifaces, i + 1, m);
      }
    }
  }

  lemma {:induction false} AssignAddsAsked(st: Alloc, sys: Sys, ifaces: seq<NetworkInterface>, m: string)
    requires m in Assign(st, sys, ifaces).0.byMac && m !in st.byMac
    ensures Asked(ifaces, m)
    decreases |ifaces|
  {
    if ifaces != [] {
      var mac, free := ToLower(ifaces[0].mac), FirstFree(st, sys, 0);
      AskedWithin(ifaces, m);
      if mac in st.byMac {
        AssignAddsAsked(st, sys, ifaces[1..], m);
      } else if free.Some? && m != mac {
        AssignAddsAsked(Put(st, mac, CanonicalName(free.value)), sys, ifaces[1..], m);
      }
    }
  }

  /** A reservation, successful or not, adds entries only for the MACs of the request. */
  lemma ReserveAddsOnlyAsked(st: Alloc, sys: Sys, ifaces: seq<NetworkInterface>)
    ensures AddsOnlyAsked(st, Reserve(st, sys, ifaces).0, ifaces)
  {
    var (st0, ok) := Explicit(st, sys, ifaces);
    var st1 := Reuse(st0, sys, ifaces, 0);
    forall m | m in Reserve(st, sys, ifaces).0.byMac && m !in st.byMac ensures Asked(ifaces, m) {
      if m in st0.byMac {
        ExplicitAddsAsked(st, sys, ifaces, m);
      } else if m in st1.byMac {
        ReuseAddsAsked(st0, sys, ifaces, 0, m);
      } else {
        AssignAddsAsked(st1, sys, ifaces, m);
      }
    }
  }
}

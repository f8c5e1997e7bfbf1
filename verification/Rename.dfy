/** Workers renaming devices while the allocator serves them, in any interleaving and over any
    number of rounds. */
module Rename {
  import opened Text
  import opened Entities
  import opened Naming
  import opened NamingTheorems
  import opened NamingUnique

  /** The devices are what the system shows: names are unique because the kernel keeps them so, a
      MAC may be unreadable (a loopback device) or shared (a bridge and its port). */
  datatype World = World(st: Alloc, links: Sys)

  /** A round begins with a reservation; a worker or the after-hook asks for a name; a worker's
      Configure has found the device `from` for its MAC and renames it, which may fail. */
  datatype Action =
    | Request(ifaces: seq<NetworkInterface>)
    | Ask(mac: string)
    | Move(mac: string, from: string, works: bool)

  predicate Carries(links: Sys, name: string, m: string) {
    MacOf(links, name).Some? && ToLower(MacOf(links, name).value) == m
  }

  /** The rename is issued: the MAC has a name and the device found has the MAC. */
  predicate CanMove(w: World, m: string, from: string) { m in w.st.byMac && Carries(w.links, from, m) }

  /** The kernel refuses a rename to a name that a device holds. */
  function Renamed(links: Sys, from: string, to: string): Sys
    requires from in links
  {
    if to in links then links else (map n | n in links && n != from :: links[n])[to := links[from]]
  }

  function Do(w: World, a: Action): World {
    match a
    case Request(ifaces) => w.(st := Reserve(w.st, w.links, ifaces).0)
    case Ask(mac) => w.(st := Generate(w.st, w.links, mac).0)
    case Move(mac, from, works) =>
      var m := ToLower(mac);
      if CanMove(w, m, from) && works then w.(links := Renamed(w.links, from, w.st.byMac[m])) else w
  }

  function DoAll(w: World, acts: seq<Action>): World
    decreases |acts|
  {
    if acts == [] then w else DoAll(Do(w, acts[0]), acts[1..])
  }

  /** The name reserved for m is free or already carried by a device with that MAC. */
  predicate NoCollision(w: World, m: string)
    requires m in w.st.byMac
  {
    w.st.byMac[m] in w.links ==> Carries(w.links, w.st.byMac[m], m)
  }

  /** No rename can hit a foreign device, now or later. */
  ghost predicate Clear(w: World) {
    Injective(w.st) && forall m | m in w.st.byMac :: NoCollision(w, m)
  }

  lemma ClearIff(w: World)
    ensures Clear(w) <==> Injective(w.st) && Agrees(w.st, w.links) && Sighted(w.st, w.links)
  {
    if Clear(w) {
      forall m | m in w.st.byMac ensures !Blind(w.links, w.st.byMac[m]) {
        assert NoCollision(w, m);
      }
      forall m | m in w.st.byMac && MacOf(w.links, w.st.byMac[m]).Some?
        ensures ToLower(MacOf(w.links, w.st.byMac[m]).value) == m
      {
        assert NoCollision(w, m);
      }
    }
    if Agrees(w.st, w.links) && Sighted(w.st, w.links) {
      forall m | m in w.st.byMac ensures NoCollision(w, m) {
        assert !Blind(w.links, w.st.byMac[m]);
      }
    }
  }

  // ------------------------------------------------------------------ one step

  /** A request is fair when the explicit names it honours are distinct, new, and not held by a
      device whose MAC cannot be read. It can be judged before the call. */
  predicate Fair(w: World, a: Action) {
    a.Request? ==>
      && ExplicitDistinct(w.st.byMac.Keys, w.st.names, w.links, a.ifaces)
      && ExplicitSighted(w.st.byMac.Keys, w.links, a.ifaces)
  }

  lemma RequestClearIff(w: World, ifaces: seq<NetworkInterface>)
    requires Good(w.st) && Clear(w)
    ensures Clear(Do(w, Request(ifaces))) <==> Fair(w, Request(ifaces))
  {
    ClearIff(w);
    ReserveUniqueIff(w.st, w.links, ifaces);
    ReserveSightedIff(w.st, w.links, ifaces);
    ClearIff(Do(w, Request(ifaces)));
  }

  lemma AskKeepsClear(w: World, mac: string)
    requires Good(w.st) && Clear(w)
    ensures Clear(Do(w, Ask(mac)))
  {
    ClearIff(w);
    GenerateKeepsQuality(w.st, w.links, mac);
    ClearIff(Do(w, Ask(mac)));
  }

  lemma MoveKeepsClear(w: World, mac: string, from: string, works: bool)
    requires Clear(w)
    ensures Clear(Do(w, Move(mac, from, works)))
  {
    var w' := Do(w, Move(mac, from, works));
    if w'.links != w.links {
      forall k | k in w'.st.byMac ensures NoCollision(w', k) {
        assert NoCollision(w, k);
      }
    }
  }

  lemma StepKeepsGood(w: World, a: Action)
    requires Good(w.st)
    ensures Good(Do(w, a).st) && Extends(w.st, Do(w, a).st)
  {
    if a.Request? {
      ReserveKeepsGood(w.st, w.links, a.ifaces);
    } else if a.Ask? {
      GenerateKeepsGood(w.st, w.links, a.mac);
    }
  }

  lemma StepClearIff(w: World, a: Action)
    requires Good(w.st) && Clear(w)
    ensures Clear(Do(w, a)) <==> Fair(w, a)
  {
    if a.Request? {
      RequestClearIff(w, a.ifaces);
    } else if a.Ask? {
      AskKeepsClear(w, a.mac);
    } else {
      MoveKeepsClear(w, a.mac, a.from, a.works);
    }
  }

  // ---------------------------------------------------------------- whole runs

  predicate AllFair(w: World, acts: seq<Action>)
    decreases |acts|
  {
    acts == [] || (Fair(w, acts[0]) && AllFair(Do(w, acts[0]), acts[1..]))
  }

  ghost predicate ClearThroughout(w: World, acts: seq<Action>)
    decreases |acts|
  {
    Clear(w) && (acts == [] || ClearThroughout(Do(w, acts[0]), acts[1..]))
  }

  /** In a run of reservations, lazy requests and renames in any order, no reserved name is ever
      shared or held by a foreign device exactly when every reservation is fair at its time. */
  lemma {:induction false} NoCollisionIff(w: World, acts: seq<Action>)
    requires Good(w.st) && Clear(w)
    ensures ClearThroughout(w, acts) <==> AllFair(w, acts)
    decreases |acts|
  {
    if acts != [] {
      StepClearIff(w, acts[0]);
      StepKeepsGood(w, acts[0]);
      if Clear(Do(w, acts[0])) {
        NoCollisionIff(Do(w, acts[0]), acts[1..]);
      }
    }
  }

  lemma {:induction false} RunKeepsClear(w: World, acts: seq<Action>)
    requires Good(w.st) && Clear(w) && AllFair(w, acts)
    ensures Good(DoAll(w, acts).st) && Clear(DoAll(w, acts)) && Extends(w.st, DoAll(w, acts).st)
    decreases |acts|
  {
    if acts != [] {
      StepClearIff(w, acts[0]);
      StepKeepsGood(w, acts[0]);
      RunKeepsClear(Do(w, acts[0]), acts[1..]);
    }
  }

  function Holders(links: Sys, mac: Option<string>): set<string> { set n | n in links && links[n] == mac }

  lemma RenamedHolders(links: Sys, from: string, to: string, mac: Option<string>)
    requires from in links
    ensures |Holders(Renamed(links, from, to), mac)| == |Holders(links, mac)|
  {
    var links' := Renamed(links, from, to);
    if to !in links {
      if links[from] == mac {
        assert Holders(links', mac) == Holders(links, mac) - {from} + {to};
      } else {
        assert Holders(links', mac) == Holders(links, mac);
      }
    }
  }

  /** No device is lost, doubled or given another MAC. */
  lemma {:induction false} DevicesConserved(w: World, acts: seq<Action>, mac: Option<string>)
    ensures |Holders(DoAll(w, acts).links, mac)| == |Holders(w.links, mac)|
    decreases |acts|
  {
    if acts != [] {
      var a := acts[0];
      DevicesConserved(Do(w, a), acts[1..], mac);
      if a.Move? && CanMove(w, ToLower(a.mac), a.from) {
        RenamedHolders(w.links, a.from, w.st.byMac[ToLower(a.mac)], mac);
      }
    }
  }

  /** From a new allocator: in every run with fair reservations, whatever order the workers run in
      and whether reservations and renames succeed, every reserved name is free or carried by its
      own MAC, no two MACs share one, and each MAC has as many devices as before. */
  lemma NoRenameCollision(links: Sys, acts: seq<Action>)
    requires AllFair(World(FRESH, links), acts)
    ensures var w := DoAll(World(FRESH, links), acts);
            Clear(w) && Good(w.st) && forall mac :: |Holders(w.links, mac)| == |Holders(links, mac)|
  {
    var w := World(FRESH, links);
    RunKeepsClear(w, acts);
    forall mac ensures |Holders(DoAll(w, acts).links, mac)| == |Holders(links, mac)| {
      DevicesConserved(w, acts, mac);
    }
  }

  lemma StaysNamed(w: World, a: Action, m: string)
    requires Good(w.st) && Injective(w.st) && m in w.st.byMac && Carries(w.links, w.st.byMac[m], m)
    ensures var w' := Do(w, a);
            m in w'.st.byMac && w'.st.byMac[m] == w.st.byMac[m] && Carries(w'.links, w.st.byMac[m], m)
  {
    if !a.Move? {
      StepKeepsGood(w, a);
    } else if CanMove(w, ToLower(a.mac), a.from) {
      CarriedStays(w.links, a.from, w.st.byMac[ToLower(a.mac)], w.st.byMac[m], m);
    }
  }

  lemma CarriedStays(links: Sys, from: string, to: string, name: string, m: string)
    requires Carries(links, name, m) && from in links && (from == name ==> to == name)
    ensures Carries(Renamed(links, from, to), name, m)
  {
  }

  /** A device that has been renamed carries its reserved name at the end of the run. */
  lemma {:induction false} RenamedForGood(w: World, acts: seq<Action>, m: string)
    requires Good(w.st) && Clear(w) && AllFair(w, acts) && m in w.st.byMac && Carries(w.links, w.st.byMac[m], m)
    ensures Carries(DoAll(w, acts).links, w.st.byMac[m], m)
    decreases |acts|
  {
    if acts != [] {
      StaysNamed(w, acts[0], m);
      StepClearIff(w, acts[0]);
      StepKeepsGood(w, acts[0]);
      RenamedForGood(Do(w, acts[0]), acts[1..], m);
    }
  }

  /** After a worker's Configure has renamed, at any point of any fair run, a device with its MAC
      ends the whole run under the name reserved for it. */
  lemma ConfiguredDeviceKeepsName(links: Sys, before: seq<Action>, mac: string, from: string, after: seq<Action>)
    requires AllFair(World(FRESH, links), before)
    requires var w := DoAll(World(FRESH, links), before);
             CanMove(w, ToLower(mac), from) && AllFair(Do(w, Move(mac, from, true)), after)
    ensures var w := DoAll(World(FRESH, links), before);
            Carries(DoAll(Do(w, Move(mac, from, true)), after).links, w.st.byMac[ToLower(mac)], ToLower(mac))
  {
    RunKeepsClear(World(FRESH, links), before);
    var w, m := DoAll(World(FRESH, links), before), ToLower(mac);
    assert NoCollision(w, m);
    MoveKeepsClear(w, mac, from, true);
    RenamedForGood(Do(w, Move(mac, from, true)), after, m);
  }

  // -------------------------------------------------------- unreadable MACs

  /** A device whose MAC cannot be read is never renamed, so its name is never free. */
  lemma {:induction false} BlindStays(w: World, acts: seq<Action>, name: string)
    requires Blind(w.links, name)
    ensures Blind(DoAll(w, acts).links, name) && DoAll(w, acts).links[name] == w.links[name]
    decreases |acts|
  {
    if acts != [] {
      BlindStays(Do(w, acts[0]), acts[1..], name);
    }
  }

  lemma BlindIsReserved(w: World, i: NetworkInterface)
    requires Good(w.st) && i.explicitName && ValidName(i.name) && ToLower(i.mac) !in w.st.byMac
             && Blind(w.links, i.name)
    ensures var m := ToLower(i.mac);
            var w1 := Do(w, Request([i]));
            Good(w1.st) && m in w1.st.byMac && w1.st.byMac[m] == i.name
  {
    var st0 := Put(w.st, ToLower(i.mac), i.name);
    assert [i][1..] == [];
    assert Explicit(w.st, w.links, [i]) == Explicit(st0, w.links, []) == (st0, true);
    PutKeepsGood(w.st, i.mac, i.name);
    ReuseKeepsGood(st0, w.links, [i], 0);
    AssignKeepsGood(Reuse(st0, w.links, [i], 0), w.links, [i]);
  }

  lemma BlindNeverCarried(w: World, acts: seq<Action>, m: string)
    requires Good(w.st) && m in w.st.byMac && Blind(w.links, w.st.byMac[m])
    ensures var w' := DoAll(w, acts);
            && m in w'.st.byMac && w'.st.byMac[m] == w.st.byMac[m] && Blind(w'.links, w.st.byMac[m])
  {
    BlindStays(w, acts, w.st.byMac[m]);
    GoodThroughout(w, acts);
  }

  /** Why fairness asks for readable holders: when a request honours an explicit name held by a
      device with an unreadable MAC, the name is reserved all the same, and in no continuation does
      any device with the requested MAC ever carry it; every rename to it is refused. */
  lemma UnreadableHolderCollides(w: World, i: NetworkInterface, acts: seq<Action>, from: string)
    requires Good(w.st) && i.explicitName && ValidName(i.name) && ToLower(i.mac) !in w.st.byMac
             && Blind(w.links, i.name)
    ensures var m := ToLower(i.mac);
            var w1 := Do(w, Request([i]));
            var w2 := DoAll(w1, acts);
            && m in w1.st.byMac && w1.st.byMac[m] == i.name && !NoCollision(w1, m)
            && m in w2.st.byMac && w2.st.byMac[m] == i.name
            && !Carries(w2.links, i.name, m) && Do(w2, Move(i.mac, from, true)).links == w2.links
  {
    BlindIsReserved(w, i);
    BlindNeverCarried(Do(w, Request([i])), acts, ToLower(i.mac));
  }

  lemma {:induction false} GoodThroughout(w: World, acts: seq<Action>)
    requires Good(w.st)
    ensures Good(DoAll(w, acts).st) && Extends(w.st, DoAll(w, acts).st)
    decreases |acts|
  {
    if acts != [] {
      StepKeepsGood(w, acts[0]);
      GoodThroughout(Do(w, acts[0]), acts[1..]);
    }
  }
}

/** From the node's resource spec to the interfaces the agent configures. */
module Loader {
  import opened Text
  import opened Entities

  datatype SpecEntry = SpecEntry(id: int, name: string, mac: string, address: string, cidr: string, mtu: int)

  /** The node the resource is for, and the check of address and CIDR: do they parse, and does the
      address lie inside the CIDR. */
  datatype Checks = Checks(nodeName: string, addressOk: (string, string) -> bool)

  /** A valid name decides the id; an unnamed entry without an id takes its position plus one. */
  function DeriveId(i: nat, e: SpecEntry): int {
    if e.name != "" then
      match NewInterfaceName(e.name)
      case Named(index) => index
      case Rejected(_) => e.id
    else if e.id == 0 then i + 1
    else e.id
  }

  /** The constructors NewNetworkInterface and NewNetworkInterfaceWithName. */
  function Entity(i: nat, e: SpecEntry, ck: Checks): Option<NetworkInterface> {
    var id := DeriveId(i, e);
    if 0 <= id < MAX_INTERFACES && ParsesAsMac(e.mac) && ValidNodeName(ck.nodeName) && ck.addressOk(e.address, e.cidr)
       && 68 <= e.mtu <= 65536 && (e.name == "" || ValidName(e.name))
    then
      var name := if e.name == "" then CanonicalName(id) else e.name;
      Some(NetworkInterface(id, e.mac, e.address, e.cidr, e.mtu, name, e.name != ""))
    else None
  }

  /** The checks that do not depend on name and id. */
  predicate FieldsOk(e: SpecEntry, ck: Checks) {
    ParsesAsMac(e.mac) && ValidNodeName(ck.nodeName) && ck.addressOk(e.address, e.cidr) && 68 <= e.mtu <= 65536
  }

  /** An unnamed entry is loaded under its id, or under its position plus one when it has none, and
      is called multinic<id>; it is rejected exactly when that id is out of range or a field is bad. */
  lemma UnnamedEntry(i: nat, e: SpecEntry, ck: Checks)
    requires e.name == ""
    ensures var id, r := if e.id != 0 then e.id else i + 1, Entity(i, e, ck);
            && (r.Some? <==> 0 <= id <= 9 && FieldsOk(e, ck))
            && (r.Some? ==> r.value.id == id && r.value.name == "multinic" + Decimal(id) && !r.value.explicitName)
  {
  }

  /** A named entry is loaded under its name and the index in it, whatever its id says; it is
      rejected exactly when the name or a field is bad. */
  lemma NamedEntry(i: nat, e: SpecEntry, ck: Checks)
    requires e.name != ""
    ensures var r := Entity(i, e, ck);
            && (r.Some? <==> ValidName(e.name) && FieldsOk(e, ck))
            && (r.Some? ==>
                  r.value.name == e.name && r.value.explicitName && NewInterfaceName(e.name) == Named(r.value.id))
  {
  }

  /** The id of a loaded interface is the index in its name, and its other fields are the entry's. */
  lemma LoadedFields(i: nat, e: SpecEntry, ck: Checks)
    requires Entity(i, e, ck).Some?
    ensures var r := Entity(i, e, ck).value;
            && NewInterfaceName(r.name) == Named(r.id)
            && r.mac == e.mac && r.address == e.address && r.cidr == e.cidr && r.mtu == e.mtu
  {
    if e.name == "" {
      CanonicalNameParses(Entity(i, e, ck).value.id);
    } else {
      NamedEntry(i, e, ck);
    }
  }

  /** The positions, from i on, that carry a value. */
  function Positions<T>(xs: seq<Option<T>>, i: nat): (ps: seq<nat>)
    requires i <= |xs|
    ensures forall k | 0 <= k < |ps| :: i <= ps[k] < |xs| && xs[ps[k]].Some?
    decreases |xs| - i
  {
    if i == |xs| then [] else if xs[i].Some? then [i] + Positions(xs, i + 1) else Positions(xs, i + 1)
  }

  lemma {:induction false} PositionsComplete<T>(xs: seq<Option<T>>, i: nat, p: nat)
    requires i <= p < |xs| && xs[p].Some?
    ensures p in Positions(xs, i)
    decreases |xs| - i
  {
    if i < p {
      PositionsComplete(xs, i + 1, p);
    }
  }

  lemma {:induction false} PositionsAscend<T>(xs: seq<Option<T>>, i: nat, k: nat, l: nat)
    requires i <= |xs| && k < l < |Positions(xs, i)|
    ensures Positions(xs, i)[k] < Positions(xs, i)[l]
    decreases |xs| - i
  {
    if xs[i].None? {
      PositionsAscend(xs, i + 1, k, l);
    } else if k > 0 {
      PositionsAscend(xs, i + 1, k - 1, l - 1);
    }
  }

  /** The values themselves. */
  function Values<T>(xs: seq<Option<T>>, i: nat): seq<T>
    requires i <= |xs|
    decreases |xs| - i
  {
    if i == |xs| then [] else if xs[i].Some? then [xs[i].value] + Values(xs, i + 1) else Values(xs, i + 1)
  }

  lemma {:induction false} ValueAt<T>(xs: seq<Option<T>>, i: nat, k: nat)
    requires i <= |xs| && k < |Positions(xs, i)|
    ensures k < |Values(xs, i)| && Values(xs, i)[k] == xs[Positions(xs, i)[k]].value
    decreases |xs| - i
  {
    if xs[i].None? {
      ValueAt(xs, i + 1, k);
    } else if k > 0 {
      ValueAt(xs, i + 1, k - 1);
    }
  }

  lemma {:induction false} ValueCount<T>(xs: seq<Option<T>>, i: nat)
    requires i <= |xs|
    ensures |Values(xs, i)| == |Positions(xs, i)|
    decreases |xs| - i
  {
    if i < |xs| {
      ValueCount(xs, i + 1);
    }
  }

  lemma ValuesStep<T>(xs: seq<Option<T>>, i: nat, out: seq<T>)
    requires i < |xs| && out + Values(xs, i) == Values(xs, 0)
    ensures (if xs[i].Some? then out + [xs[i].value] else out) + Values(xs, i + 1) == Values(xs, 0)
  {
  }

  /** What becomes of each entry. */
  function Tried(spec: seq<SpecEntry>, ck: Checks): (r: seq<Option<NetworkInterface>>)
    ensures |r| == |spec| && forall i | 0 <= i < |spec| :: r[i] == Entity(i, spec[i], ck)
  {
    seq(|spec|, i requires 0 <= i < |spec| => Entity(i, spec[i], ck))
  }

  /** The positions of the accepted entries, in order. */
  function Kept(spec: seq<SpecEntry>, ck: Checks): (ps: seq<nat>)
    ensures forall k | 0 <= k < |ps| :: ps[k] < |spec| && Entity(ps[k], spec[ps[k]], ck).Some?
  {
    Positions(Tried(spec, ck), 0)
  }

  /** Every accepted entry is kept, once, in order. */
  lemma KeptIsExact(spec: seq<SpecEntry>, ck: Checks)
    ensures forall p: nat | p < |spec| && Entity(p, spec[p], ck).Some? :: p in Kept(spec, ck)
    ensures forall k, l | 0 <= k < l < |Kept(spec, ck)| :: Kept(spec, ck)[k] < Kept(spec, ck)[l]
  {
    var xs := Tried(spec, ck);
    forall p: nat | p < |xs| && xs[p].Some? ensures p in Kept(spec, ck) {
      PositionsComplete(xs, 0, p);
    }
    forall p: nat | p < |spec| && Entity(p, spec[p], ck).Some? ensures p in Kept(spec, ck) {
      assert xs[p].Some?;
    }
    forall k, l | 0 <= k < l < |Positions(xs, 0)| ensures Positions(xs, 0)[k] < Positions(xs, 0)[l] {
      PositionsAscend(xs, 0, k, l);
    }
  }

  /** One turn of the loop in loadAll: the id is reassigned step by step, then a constructor is tried. */
  method LoadEntry(spec: seq<SpecEntry>, i: nat, ck: Checks) returns (ent: Option<NetworkInterface>)
    requires i < |spec|
    ensures ent == Tried(spec, ck)[i]
  {
    var ni := spec[i];
    var id := ni.id;
    if ni.name != "" {
      var parsed := NewInterfaceName(ni.name);
      if parsed.Named? {
        id := parsed.index;
      }
    }
    if id == 0 && ni.name == "" {
      id := i + 1;
    }
    if !(0 <= id < MAX_INTERFACES && ParsesAsMac(ni.mac) && ValidNodeName(ck.nodeName)
         && ck.addressOk(ni.address, ni.cidr) && 68 <= ni.mtu <= 65536) {
      return None;
    }
    if ni.name == "" {
      return Some(NetworkInterface(id, ni.mac, ni.address, ni.cidr, ni.mtu, CanonicalName(id), false));
    }
    if !ValidName(ni.name) {
      return None;
    }
    return Some(NetworkInterface(id, ni.mac, ni.address, ni.cidr, ni.mtu, ni.name, true));
  }

  /** The interface of the k-th accepted entry. */
  function LoadedAt(spec: seq<SpecEntry>, ck: Checks, k: nat): NetworkInterface
    requires k < |Kept(spec, ck)|
  {
    Tried(spec, ck)[Kept(spec, ck)[k]].value
  }

  /** loadAll: invalid entries are skipped, the others keep their order. */
  method LoadAll(spec: seq<SpecEntry>, ck: Checks) returns (out: seq<NetworkInterface>)
    ensures out == Values(Tried(spec, ck), 0)
  {
    out := [];
    ghost var xs := Tried(spec, ck);
    var i := 0;
    while i < |spec|
      invariant i <= |spec| && out + Values(xs, i) == Values(xs, 0)
    {
      var ent := LoadEntry(spec, i, ck);
      ValuesStep(xs, i, out);
      if ent.Some? {
        out := out + [ent.value];
      }
      i := i + 1;
    }
  }

  /** The k-th interface loaded is made from the k-th accepted entry. */
  lemma LoadsTheAccepted(spec: seq<SpecEntry>, ck: Checks)
    ensures |Values(Tried(spec, ck), 0)| == |Kept(spec, ck)|
    ensures forall k | 0 <= k < |Kept(spec, ck)| :: Values(Tried(spec, ck), 0)[k] == LoadedAt(spec, ck, k)
  {
    var xs := Tried(spec, ck);
    ValueCount(xs, 0);
    forall k | 0 <= k < |Positions(xs, 0)| ensures Values(xs, 0)[k] == xs[Positions(xs, 0)[k]].value {
      ValueAt(xs, 0, k);
    }
  }
}

/** The Netplan directory: what Configure and Rollback do to it, and the removal of orphaned files. */
module Cleanup {
  import opened Text
  import opened Listing
  import opened Entities
  import opened Netplan

  /** The MAC addresses under `match` in a file's entries, in iteration order; None when the file
      cannot be read or parsed. */
  datatype File = File(macs: Option<seq<string>>)

  function IntText(i: int): string { if i < 0 then "-" + Decimal(-i) else Decimal(i) }

  /** The file Configure writes and Rollback removes. */
  function FileName(name: string): string { "9" + IntText(Index(name)) + "-" + name + ".yaml" }

  /** isMultinicNetplanFile. */
  predicate IsMultinicFile(f: string) {
    Contains(f, PREFIX) && HasSuffix(f, ".yaml") && HasPrefix(f, "9") && Contains(f, "-")
  }

  function FirstWithPrefix(parts: seq<string>): string {
    if parts == [] then "" else if HasPrefix(parts[0], PREFIX) then parts[0] else FirstWithPrefix(parts[1..])
  }

  /** extractInterfaceNameFromFile. Its last branch, a whole name that begins with multinic, is
      never reached: the first part would begin with multinic as well. */
  function InterfaceOf(f: string): string {
    if !Contains(f, PREFIX) then "" else FirstWithPrefix(Split(TrimSuffix(f, ".yaml"), '-'))
  }

  /** The file that cleaning up f removes. */
  function Target(f: string): string { FileName(InterfaceOf(f)) }

  function FirstNonEmpty(macs: seq<string>): Option<string> {
    if macs == [] then None else if macs[0] != "" then Some(macs[0]) else FirstNonEmpty(macs[1..])
  }

  /** getMACAddressFromNetplanFile. */
  function MacOf(file: File): Option<string> {
    if file.macs.None? then None else FirstNonEmpty(file.macs.value)
  }

  /** A file is an orphan when its MAC can be read and no active interface has it. */
  predicate IsOrphan(files: map<string, File>, active: set<string>, f: string) {
    f in files && IsMultinicFile(f) && MacOf(files[f]).Some? && ToLower(MacOf(files[f]).value) !in active
  }

  function Orphans(files: map<string, File>, active: set<string>): set<string> {
    set f | f in files && IsOrphan(files, active, f)
  }

  function SelectOrphans(files: map<string, File>, active: set<string>, listing: seq<string>): (r: seq<string>)
    ensures forall f :: f in r <==> f in listing && IsOrphan(files, active, f)
  {
    if listing == [] then []
    else
      var rest := SelectOrphans(files, active, listing[1..]);
      if IsOrphan(files, active, listing[0]) then [listing[0]] + rest else rest
  }

  /** What cleanup cannot change: the files whose removal fails, and the adapter's options. */
  datatype Host = Host(stuck: set<string>, options: Options)

  /** The directory, the routing tables in use and the two lists of the output while the orphans
      are worked off. */
  datatype Progress = Progress(files: map<string, File>, tables: set<int>, deleted: seq<string>, errors: seq<string>)

  /** The file to remove for f is there and cannot be removed. */
  predicate Blocked(files: map<string, File>, host: Host, f: string) { Target(f) in files && Target(f) in host.stuck }

  /** cleanupRouting flushes the table of the name, whoever uses it. */
  function Flushed(o: Options, name: string): set<int> { if o.policyRouting then {Table(o, name)} else {} }

  function SweepOne(p: Progress, host: Host, f: string): Progress {
    if Blocked(p.files, host, f) then p.(errors := p.errors + [f])
    else Progress(p.files - {Target(f)}, p.tables - Flushed(host.options, InterfaceOf(f)),
                  p.deleted + [InterfaceOf(f)], p.errors)
  }

  function Sweep(p: Progress, host: Host, orphans: seq<string>): Progress
    decreases |orphans|
  {
    if orphans == [] then p else Sweep(SweepOne(p, host, orphans[0]), host, orphans[1..])
  }

  /** The Netplan directory and the routing tables of its interfaces. */
  class Directory {
    const host: Host
    var files: map<string, File>
    var tables: set<int>

    constructor (files: map<string, File>, tables: set<int>, host: Host)
      ensures this.files == files && this.tables == tables && this.host == host
    {
      this.files, this.tables, this.host := files, tables, host;
    }

    /** The steps of Configure that last: the policy route and the file. */
    method Persist(iface: NetworkInterface, name: string)
      modifies this
      ensures files == old(files)[FileName(name) := File(Some([iface.mac]))]
      ensures tables == old(tables) +
              if TrimSpace(iface.address) == "" || TrimSpace(iface.cidr) == "" then {} else Flushed(host.options, name)
    {
      if host.options.policyRouting && TrimSpace(iface.address) != "" && TrimSpace(iface.cidr) != "" {
        tables := tables + {Table(host.options, name)};
      }
      files := files[FileName(name) := File(Some([iface.mac]))];
    }

    method Rollback(name: string) returns (ok: bool)
      modifies this
      ensures ok <==> !(FileName(name) in old(files) && FileName(name) in host.stuck)
      ensures files == if ok then old(files) - {FileName(name)} else old(files)
      ensures tables == if ok then old(tables) - Flushed(host.options, name) else old(tables)
    {
      var path := FileName(name);
      if path in files {
        if path in host.stuck {
          return false;
        }
        files := files - {path};
      }
      if host.options.policyRouting {
        tables := tables - {Table(host.options, name)};
      }
      return true;
    }

    method FindOrphaned(interfaces: seq<NetworkInterface>, listing: seq<string>) returns (orphans: seq<string>)
      requires Lists(files, listing)
      ensures orphans == SelectOrphans(files, ActiveMacs(interfaces), listing)
    {
      var active := CollectActive(interfaces);
      orphans := [];
      var i := 0;
      while i < |listing|
        invariant i <= |listing|
        invariant orphans + SelectOrphans(files, active, listing[i..]) == SelectOrphans(files, active, listing)
      {
        var f := listing[i];
        assert listing[i..][0] == f && listing[i..][1..] == listing[i + 1..];
        if IsMultinicFile(f) {
          var mac := MacOf(files[f]);
          if mac.Some? && ToLower(mac.value) !in active {
            orphans := orphans + [f];
          }
        }
        i := i + 1;
      }
    }

    /** executeNetplanCleanup: one rollback for each orphan. */
    method ExecuteCleanup(
        interfaces: seq<NetworkInterface>, listing: seq<string>) returns (deleted: seq<string>, errors: seq<string>)
      requires Lists(files, listing)
      modifies this
      ensures Progress(files, tables, deleted, errors) ==
              Sweep(Progress(old(files), old(tables), [], []), host,
                    SelectOrphans(old(files), ActiveMacs(interfaces), listing))
    {
      var orphans := FindOrphaned(interfaces, listing);
      deleted, errors := [], [];
      var i := 0;
      while i < |orphans|
        invariant i <= |orphans|
        invariant Sweep(Progress(files, tables, deleted, errors), host, orphans[i..]) ==
                  Sweep(Progress(old(files), old(tables), [], []), host, orphans)
      {
        assert orphans[i..][0] == orphans[i] && orphans[i..][1..] == orphans[i + 1..];
        var name := InterfaceOf(orphans[i]);
        var ok := Rollback(name);
        if ok {
          deleted := deleted + [name];
        } else {
          errors := errors + [orphans[i]];
        }
        i := i + 1;
      }
    }
  }

  function ActiveMacs(interfaces: seq<NetworkInterface>): set<string> {
    set i | 0 <= i < |interfaces| :: ToLower(interfaces[i].mac)
  }

  method CollectActive(interfaces: seq<NetworkInterface>) returns (active: set<string>)
    ensures active == ActiveMacs(interfaces)
  {
    active := {};
    for i := 0 to |interfaces|
      invariant active == set k | 0 <= k < i :: ToLower(interfaces[k].mac)
    {
      active := active + {ToLower(interfaces[i].mac)};
    }
  }

  /** Files cleanup never selects, whatever they hold. */
  lemma NeverSelected(files: map<string, File>, active: set<string>, f: string)
    requires f == "" || f[0] != '9' || !HasSuffix(f, ".yaml") || '-' !in f || !Contains(f, "multinic")
    ensures !IsOrphan(files, active, f)
  {
    if f != "" && f[0] == '9' && HasSuffix(f, ".yaml") && '-' !in f {
      forall k | 0 <= k <= |f| ensures !HasPrefix(f[k..], "-") {
        if k < |f| {
          assert f[k..][..1] == [f[k]];
        }
      }
    }
  }

  lemma {:induction false} FirstNonEmptyIs(macs: seq<string>, k: nat)
    requires k < |macs| && macs[k] != "" && forall j | 0 <= j < k :: macs[j] == ""
    ensures FirstNonEmpty(macs) == Some(macs[k])
  {
    if k > 0 {
      FirstNonEmptyIs(macs[1..], k - 1);
    }
  }

  lemma {:induction false} NoneNonEmpty(macs: seq<string>)
    requires forall j | 0 <= j < |macs| :: macs[j] == ""
    ensures FirstNonEmpty(macs) == None
  {
    if macs != [] {
      NoneNonEmpty(macs[1..]);
    }
  }

  /** A stored multinic file is an orphan exactly when it can be read, some entry has a MAC, and the
      first MAC in it is, ignoring case, that of no interface of the node. */
  lemma OrphanIff(files: map<string, File>, interfaces: seq<NetworkInterface>, f: string)
    requires f in files && IsMultinicFile(f)
    ensures files[f].macs.None? ==> !IsOrphan(files, ActiveMacs(interfaces), f)
    ensures files[f].macs.Some? && (forall j | 0 <= j < |files[f].macs.value| :: files[f].macs.value[j] == "") ==>
              !IsOrphan(files, ActiveMacs(interfaces), f)
    ensures files[f].macs.Some? ==>
              var macs := files[f].macs.value;
              forall k | 0 <= k < |macs| && macs[k] != "" && (forall j | 0 <= j < k :: macs[j] == "") ::
                IsOrphan(files, ActiveMacs(interfaces), f) <==>
                forall i | 0 <= i < |interfaces| :: !EqualFold(interfaces[i].mac, macs[k])
  {
    if files[f].macs.Some? {
      var macs := files[f].macs.value;
      if forall j | 0 <= j < |macs| :: macs[j] == "" {
        NoneNonEmpty(macs);
      }
      forall k | 0 <= k < |macs| && macs[k] != "" && (forall j | 0 <= j < k :: macs[j] == "")
        ensures MacOf(files[f]) == Some(macs[k])
      {
        FirstNonEmptyIs(macs, k);
      }
    }
  }

  lemma {:induction false} SelectedOnce(files: map<string, File>, active: set<string>, listing: seq<string>)
    requires forall i, j | 0 <= i < j < |listing| :: listing[i] != listing[j]
    ensures var r := SelectOrphans(files, active, listing);
            |r| == |set f | f in r| && forall f | f in r :: f in listing
    decreases |listing|
  {
    if listing != [] {
      var f, rest := listing[0], SelectOrphans(files, active, listing[1..]);
      assert forall i | 0 <= i < |listing| - 1 :: listing[1..][i] == listing[i + 1];
      SelectedOnce(files, active, listing[1..]);
      assert f !in listing[1..];
      if IsOrphan(files, active, f) {
        assert (set g | g in [f] + rest) == {f} + (set g | g in rest);
      }
    }
  }

  /** Each orphan is worked off once: the selection is as long as the set of orphans is large. */
  lemma OrphansCounted(files: map<string, File>, active: set<string>, listing: seq<string>)
    requires Lists(files, listing)
    ensures |SelectOrphans(files, active, listing)| == |Orphans(files, active)|
  {
    SelectedOnce(files, active, listing);
    assert (set f | f in SelectOrphans(files, active, listing)) == Orphans(files, active);
  }

  // ---------------------------------------------------------------- file names

  /** The part of a file name the interface is read from has no dash and, unless it is empty,
      begins with multinic. */
  lemma {:induction false} FirstWithPrefixIsPart(parts: seq<string>)
    ensures var r := FirstWithPrefix(parts); r == "" || (r in parts && HasPrefix(r, PREFIX))
  {
    if parts != [] {
      FirstWithPrefixIsPart(parts[1..]);
    }
  }

  predicate NameLike(name: string) { HasPrefix(name, PREFIX) && '-' !in name }

  lemma InterfaceOfIsNameLike(f: string)
    ensures InterfaceOf(f) == "" || NameLike(InterfaceOf(f))
  {
    FirstWithPrefixIsPart(Split(TrimSuffix(f, ".yaml"), '-'));
  }

  lemma IndexNotNegative(name: string)
    requires '-' !in name
    ensures Index(name) >= 0
  {
  }

  lemma ContainsAt(s: string, p: string, k: nat)
    requires k <= |s| && HasPrefix(s[k..], p)
    ensures Contains(s, p)
  {
  }

  /** A file name made of a label, a dash, an interface name and the extension. */
  function Labelled(x: string, name: string): string { x + "-" + name + ".yaml" }

  predicate IsLabel(x: string) { HasPrefix(x, "9") && '-' !in x }

  lemma LabelledIsMultinic(x: string, name: string)
    requires IsLabel(x) && NameLike(name)
    ensures IsMultinicFile(Labelled(x, name))
  {
    var f := Labelled(x, name);
    assert f[|x| + 1..] == name + ".yaml" && (name + ".yaml")[..|PREFIX|] == name[..|PREFIX|];
    ContainsAt(f, PREFIX, |x| + 1);
    assert f[|x|..][..1] == "-";
    ContainsAt(f, "-", |x|);
    assert f[..1] == x[..1];
    assert f[|f| - 5..] == ".yaml";
  }

  lemma LabelledInterface(x: string, name: string)
    requires IsLabel(x) && NameLike(name)
    ensures InterfaceOf(Labelled(x, name)) == name
  {
    LabelledIsMultinic(x, name);
    var f := Labelled(x, name);
    assert f[|f| - 5..] == ".yaml" && f[..|f| - 5] == x + "-" + name;
    SplitFirst(x, name, '-');
    SplitWhole(name, '-');
    assert x[..1] == "9" && x[0] == '9';
    assert [x, name][1..] == [name];
    assert FirstWithPrefix([name]) == name;
  }

  lemma FileNameIsLabelled(name: string)
    requires NameLike(name)
    ensures Index(name) >= 0 && IsLabel("9" + Decimal(Index(name)))
    ensures FileName(name) == Labelled("9" + Decimal(Index(name)), name)
  {
    IndexNotNegative(name);
    DecimalRoundTrip(Index(name));
    assert ("9" + Decimal(Index(name)))[..1] == "9";
  }

  /** Configure's file name is recognised as a multinic file, and the interface name is read back
      from it. So Rollback, the orphan scan and Configure agree on the file. */
  lemma FileNameRoundTrip(name: string)
    requires NameLike(name)
    ensures InterfaceOf(FileName(name)) == name && IsMultinicFile(FileName(name))
  {
    FileNameIsLabelled(name);
    LabelledInterface("9" + Decimal(Index(name)), name);
    LabelledIsMultinic("9" + Decimal(Index(name)), name);
  }

  lemma ValidNameIsNameLike(name: string)
    requires ValidName(name)
    ensures NameLike(name)
  {
  }

  /** Distinct interfaces have distinct files. */
  lemma FileNameInjective(a: string, b: string)
    requires NameLike(a) && NameLike(b) && FileName(a) == FileName(b)
    ensures a == b
  {
    FileNameRoundTrip(a);
    FileNameRoundTrip(b);
  }

  lemma NamelessTarget()
    ensures InterfaceOf(FileName("")) == ""
  {
  }

  /** Cleaning up the target of a file would remove that same target. */
  lemma TargetIdempotent(f: string)
    ensures Target(Target(f)) == Target(f)
  {
    InterfaceOfIsNameLike(f);
    if InterfaceOf(f) == "" {
      NamelessTarget();
    } else {
      FileNameRoundTrip(InterfaceOf(f));
    }
  }

  // ------------------------------------------------------------------ theorems

  /** The targets that can be removed. */
  function Gone(stuck: set<string>, orphans: seq<string>): set<string> {
    set f | f in orphans && Target(f) !in stuck :: Target(f)
  }

  lemma GoneStep(stuck: set<string>, orphans: seq<string>)
    requires orphans != []
    ensures var t := Target(orphans[0]);
            Gone(stuck, orphans) == Gone(stuck, orphans[1..]) + (if t in stuck then {} else {t})
  {
  }

  /** A sweep removes the targets of the orphans that are not stuck and touches no other file;
      every orphan ends up in exactly one of the two lists. */
  lemma {:induction false} SweepRemoves(p: Progress, host: Host, orphans: seq<string>)
    ensures var q := Sweep(p, host, orphans);
            && q.files == p.files - Gone(host.stuck, orphans)
            && |q.deleted| + |q.errors| == |p.deleted| + |p.errors| + |orphans|
    decreases |orphans|
  {
    if orphans != [] {
      var p1, gone := SweepOne(p, host, orphans[0]), Gone(host.stuck, orphans[1..]);
      SweepRemoves(p1, host, orphans[1..]);
      GoneStep(host.stuck, orphans);
      assert p1.files - gone == p.files - Gone(host.stuck, orphans);
    }
  }

  /** An error means that the orphan's target was there and stuck. */
  lemma {:induction false} NoErrorsMeansAllGone(p: Progress, host: Host, orphans: seq<string>)
    requires Sweep(p, host, orphans).errors == []
    ensures p.errors == []
    ensures forall f | f in orphans :: Target(f) !in Sweep(p, host, orphans).files
    decreases |orphans|
  {
    if orphans != [] {
      NoErrorsMeansAllGone(SweepOne(p, host, orphans[0]), host, orphans[1..]);
      SweepRemoves(SweepOne(p, host, orphans[0]), host, orphans[1..]);
    }
  }

  function CleanUp(
      files: map<string, File>, tables: set<int>, host: Host, active: set<string>, listing: seq<string>): Progress {
    Sweep(Progress(files, tables, [], []), host, SelectOrphans(files, active, listing))
  }

  /** Every orphan carries the name that Configure would have given it. */
  predicate WellNamed(files: map<string, File>, active: set<string>) {
    forall f | f in files && IsOrphan(files, active, f) :: Target(f) == f
  }

  /** On any host, cleanup removes exactly the orphans if and only if every orphan is named as
      Configure names it and none of them is stuck. */
  lemma ExactIff(
      files: map<string, File>, tables: set<int>, host: Host, active: set<string>, listing: seq<string>)
    requires Lists(files, listing)
    ensures CleanUp(files, tables, host, active, listing).files == files - Orphans(files, active)
            <==> WellNamed(files, active) && Orphans(files, active) !! host.stuck
  {
    var orphans := SelectOrphans(files, active, listing);
    var after := CleanUp(files, tables, host, active, listing).files;
    SweepRemoves(Progress(files, tables, [], []), host, orphans);
    assert forall f :: f in orphans <==> f in Orphans(files, active);
    if WellNamed(files, active) && Orphans(files, active) !! host.stuck {
      assert Gone(host.stuck, orphans) == Orphans(files, active);
    }
    if after == files - Orphans(files, active) {
      forall f | f in files && IsOrphan(files, active, f) ensures Target(f) == f && f !in host.stuck {
        assert f !in after;
        var g :| g in orphans && Target(g) == f && f !in host.stuck;
        TargetIdempotent(g);
      }
    }
  }

  /** The orphans a cleanup leaves behind are those not named as Configure names them. */
  lemma LeftBehind(
      files: map<string, File>, tables: set<int>, host: Host, active: set<string>, listing: seq<string>, f: string)
    requires Lists(files, listing) && CleanUp(files, tables, host, active, listing).errors == []
    ensures IsOrphan(CleanUp(files, tables, host, active, listing).files, active, f)
            <==> IsOrphan(files, active, f) && Target(f) != f
    ensures IsOrphan(files, active, f) ==> Target(f) !in CleanUp(files, tables, host, active, listing).files
  {
    var orphans := SelectOrphans(files, active, listing);
    var after := CleanUp(files, tables, host, active, listing).files;
    NoErrorsMeansAllGone(Progress(files, tables, [], []), host, orphans);
    SweepRemoves(Progress(files, tables, [], []), host, orphans);
    if IsOrphan(files, active, f) && f !in after {
      var g :| g in orphans && Target(g) == f;
      TargetIdempotent(g);
    }
  }

  lemma StaysBlocked(p: Progress, host: Host, g: string, f: string)
    ensures Blocked(SweepOne(p, host, g).files, host, f) <==> Blocked(p.files, host, f)
  {
  }

  lemma {:induction false} SweepErrors(p: Progress, host: Host, orphans: seq<string>, f: string)
    ensures f in Sweep(p, host, orphans).errors <==>
            f in p.errors || (f in orphans && Blocked(p.files, host, f))
    decreases |orphans|
  {
    if orphans != [] {
      var g, p1 := orphans[0], SweepOne(p, host, orphans[0]);
      SweepErrors(p1, host, orphans[1..], f);
      StaysBlocked(p, host, g, f);
      assert f in orphans <==> f == g || f in orphans[1..];
      assert f in p1.errors <==> f in p.errors || (f == g && Blocked(p.files, host, g));
    }
  }

  /** With well-named orphans a failed removal costs only its own file: the other orphans are
      removed, nothing else is touched, and the errors name exactly the orphans that stayed. */
  lemma FailuresAreIsolated(
      files: map<string, File>, tables: set<int>, host: Host, active: set<string>, listing: seq<string>)
    requires Lists(files, listing) && WellNamed(files, active)
    ensures var p := CleanUp(files, tables, host, active, listing);
            && p.files == files - (Orphans(files, active) - host.stuck)
            && (forall f :: f in p.errors <==> f in Orphans(files, active) && f in host.stuck)
            && |p.deleted| + |p.errors| == |SelectOrphans(files, active, listing)|
  {
    var orphans := SelectOrphans(files, active, listing);
    SweepRemoves(Progress(files, tables, [], []), host, orphans);
    assert forall f | f in orphans :: Target(f) == f;
    assert Gone(host.stuck, orphans) == Orphans(files, active) - host.stuck;
    forall f
      ensures f in CleanUp(files, tables, host, active, listing).errors
              <==> f in Orphans(files, active) && f in host.stuck
    {
      SweepErrors(Progress(files, tables, [], []), host, orphans, f);
    }
  }

  /** After a cleanup without errors another one changes nothing, and it reports nothing deleted
      exactly when every orphan was named as Configure names it. */
  lemma SecondRun(
      files: map<string, File>, tables: set<int>, host: Host, active: set<string>, listing: seq<string>,
      again: seq<string>)
    requires Lists(files, listing) && CleanUp(files, tables, host, active, listing).errors == []
    requires Lists(CleanUp(files, tables, host, active, listing).files, again)
    ensures var first := CleanUp(files, tables, host, active, listing);
            var second := CleanUp(first.files, first.tables, host, active, again);
            && second.files == first.files && second.tables == first.tables && second.errors == []
            && (second.deleted == [] <==> WellNamed(files, active))
  {
    var after := CleanUp(files, tables, host, active, listing);
    var left := SelectOrphans(after.files, active, again);
    forall f ensures IsOrphan(after.files, active, f) <==> IsOrphan(files, active, f) && Target(f) != f {
      LeftBehind(files, tables, host, active, listing, f);
    }
    forall f | f in left ensures Target(f) !in after.files {
      LeftBehind(files, tables, host, active, listing, f);
    }
    FlushedAlready(files, tables, host, active, listing, left);
    UntouchedFrom(Progress(after.files, after.tables, [], []), host, left);
    assert left == [] <==> WellNamed(files, active) by {
      if left != [] {
        assert IsOrphan(after.files, active, left[0]);
      }
    }
  }

  lemma FlushedAlready(
      files: map<string, File>, tables: set<int>, host: Host, active: set<string>, listing: seq<string>,
      left: seq<string>)
    requires CleanUp(files, tables, host, active, listing).errors == []
    requires forall f | f in left :: f in SelectOrphans(files, active, listing)
    ensures forall f | f in left ::
              CleanUp(files, tables, host, active, listing).tables !! Flushed(host.options, InterfaceOf(f))
  {
    var orphans := SelectOrphans(files, active, listing);
    SweepFlushes(Progress(files, tables, [], []), host, orphans);
    forall f | f in left
      ensures CleanUp(files, tables, host, active, listing).tables !! Flushed(host.options, InterfaceOf(f))
    {
      SweepErrors(Progress(files, tables, [], []), host, orphans, f);
    }
  }

  lemma {:induction false} UntouchedFrom(p: Progress, host: Host, orphans: seq<string>)
    requires forall f | f in orphans :: Target(f) !in p.files && p.tables !! Flushed(host.options, InterfaceOf(f))
    ensures var q := Sweep(p, host, orphans);
            q.files == p.files && q.tables == p.tables && q.errors == p.errors && |q.deleted| == |p.deleted| + |orphans|
    decreases |orphans|
  {
    if orphans != [] {
      assert orphans[0] in orphans;
      assert p.files - {Target(orphans[0])} == p.files;
      assert p.tables - Flushed(host.options, InterfaceOf(orphans[0])) == p.tables;
      UntouchedFrom(SweepOne(p, host, orphans[0]), host, orphans[1..]);
    }
  }

  // ------------------------------------------------------------ routing tables

  /** The one table a written file refers to is the one Configure takes and Rollback flushes. */
  lemma FileUsesOwnTable(iface: NetworkInterface, o: Options, name: string)
    requires ValidV4(iface)
    ensures TablesOf(Written(iface, o, name)) == Flushed(o, name)
  {
    WrittenRouting(iface, o, name);
  }

  /** The tables flushed on behalf of the orphans that are not blocked. */
  function FlushedBy(files: map<string, File>, host: Host, orphans: seq<string>): set<int> {
    if orphans == [] then {}
    else (if Blocked(files, host, orphans[0]) then {} else Flushed(host.options, InterfaceOf(orphans[0])))
         + FlushedBy(files, host, orphans[1..])
  }

  lemma {:induction false} FlushedByIff(files: map<string, File>, host: Host, orphans: seq<string>, t: int)
    ensures t in FlushedBy(files, host, orphans) <==>
            exists f :: f in orphans && !Blocked(files, host, f) && t in Flushed(host.options, InterfaceOf(f))
    decreases |orphans|
  {
    if orphans != [] {
      FlushedByIff(files, host, orphans[1..], t);
      assert forall f :: f in orphans <==> f == orphans[0] || f in orphans[1..];
    }
  }

  /** Removing files never unblocks an orphan. */
  lemma {:induction false} FlushedByStable(
      files: map<string, File>, files': map<string, File>, host: Host, orphans: seq<string>)
    requires forall k | k in host.stuck :: k in files' <==> k in files
    ensures FlushedBy(files', host, orphans) == FlushedBy(files, host, orphans)
    decreases |orphans|
  {
    if orphans != [] {
      FlushedByStable(files, files', host, orphans[1..]);
    }
  }

  lemma {:induction false} SweepTables(p: Progress, host: Host, orphans: seq<string>)
    ensures Sweep(p, host, orphans).tables == p.tables - FlushedBy(p.files, host, orphans)
    decreases |orphans|
  {
    if orphans != [] {
      var p1 := SweepOne(p, host, orphans[0]);
      SweepTables(p1, host, orphans[1..]);
      FlushedByStable(p.files, p1.files, host, orphans[1..]);
    }
  }

  /** A table survives a sweep exactly when no orphan worked off has it. */
  lemma SweepFlushes(p: Progress, host: Host, orphans: seq<string>)
    ensures forall t :: t in Sweep(p, host, orphans).tables <==>
              t in p.tables &&
              !exists f :: f in orphans && !Blocked(p.files, host, f) && t in Flushed(host.options, InterfaceOf(f))
  {
    SweepTables(p, host, orphans);
    forall t: int ensures t in FlushedBy(p.files, host, orphans) <==>
              exists f :: f in orphans && !Blocked(p.files, host, f) && t in Flushed(host.options, InterfaceOf(f))
    {
      FlushedByIff(p.files, host, orphans, t);
    }
  }

  /** An orphan that is worked off has this index. */
  ghost predicate Hit(files: map<string, File>, host: Host, active: set<string>, index: int) {
    exists f :: IsOrphan(files, active, f) && !Blocked(files, host, f) && Index(InterfaceOf(f)) == index
  }

  /** An orphan that is worked off has the index of a live interface. */
  ghost predicate SharesIndex(files: map<string, File>, host: Host, active: set<string>, live: set<string>) {
    exists n :: n in live && Hit(files, host, active, Index(n))
  }

  lemma TableKeptIff(
      files: map<string, File>, tables: set<int>, host: Host, active: set<string>, listing: seq<string>, n: string)
    requires Lists(files, listing) && host.options.policyRouting && Table(host.options, n) in tables
    ensures Table(host.options, n) in CleanUp(files, tables, host, active, listing).tables
            <==> !Hit(files, host, active, Index(n))
  {
    var orphans := SelectOrphans(files, active, listing);
    SweepFlushes(Progress(files, tables, [], []), host, orphans);
    assert forall f :: f in orphans <==> IsOrphan(files, active, f);
    var o, t := host.options, Table(host.options, n);
    assert forall f :: t in Flushed(o, InterfaceOf(f)) <==> Index(InterfaceOf(f)) == Index(n);
  }

  /** With policy routing, cleanup leaves the tables of the live interfaces alone exactly when no
      orphan that is worked off has the index of a live one; an orphan without a readable index
      counts as index 0. */
  lemma LiveTablesKeptIff(
      files: map<string, File>, tables: set<int>, host: Host, active: set<string>, listing: seq<string>,
      live: set<string>)
    requires Lists(files, listing) && host.options.policyRouting
             && forall n | n in live :: Table(host.options, n) in tables
    ensures (forall n | n in live :: Table(host.options, n) in CleanUp(files, tables, host, active, listing).tables)
            <==> !SharesIndex(files, host, active, live)
  {
    forall n | n in live
      ensures Table(host.options, n) in CleanUp(files, tables, host, active, listing).tables
              <==> !Hit(files, host, active, Index(n))
    {
      TableKeptIff(files, tables, host, active, listing, n);
    }
  }

  /** With canonical names on both sides and no live name among the orphans, no live table is touched. */
  lemma CanonicalNamesKeepTables(files: map<string, File>, host: Host, active: set<string>, live: set<string>)
    requires forall n | n in live :: Canonical(n)
    requires forall f | IsOrphan(files, active, f) :: Canonical(InterfaceOf(f)) && InterfaceOf(f) !in live
    ensures !SharesIndex(files, host, active, live)
  {
    forall f, n | IsOrphan(files, active, f) && n in live ensures Index(InterfaceOf(f)) != Index(n) {
      IndexOfValidName(InterfaceOf(f));
      IndexOfValidName(n);
    }
  }

  /** Cleaning up the file of multinic05 flushes the table of the live multinic5. */
  lemma PaddedOrphanFlushesLive(files: map<string, File>, host: Host, active: set<string>)
    requires IsOrphan(files, active, FileName("multinic05")) && FileName("multinic05") !in host.stuck
    ensures SharesIndex(files, host, active, {"multinic5"})
  {
    PaddedNameSharesTable(host.options);
    ValidNameIsNameLike("multinic05");
    FileNameRoundTrip("multinic05");
    assert !Blocked(files, host, FileName("multinic05"));
    assert Hit(files, host, active, Index("multinic5"));
  }

  // ------------------------------------------------------------- which files

  /** Files written by Configure for accepted names are well named. */
  lemma ConfiguredFilesAreWellNamed(files: map<string, File>, active: set<string>)
    requires forall f | f in files && IsMultinicFile(f) :: exists name :: ValidName(name) && f == FileName(name)
    ensures WellNamed(files, active)
  {
    forall f | f in files && IsOrphan(files, active, f) ensures Target(f) == f {
      var name :| ValidName(name) && f == FileName(name);
      ValidNameIsNameLike(name);
      FileNameRoundTrip(name);
    }
  }

  lemma LabelUnique(x: string, y: string, name: string)
    requires Labelled(x, name) == Labelled(y, name)
    ensures x == y
  {
    var f := Labelled(x, name);
    assert |x| == |y|;
    assert f[..|x|] == x && f[..|y|] == y;
  }

  /** Why the condition is needed: an orphan whose label Configure would not have chosen stays, and
      the file that Configure keeps for the interface of that name is removed, live or not. */
  lemma ForeignLabelRemovesOther(
      files: map<string, File>, tables: set<int>, host: Host, active: set<string>, listing: seq<string>,
      x: string, name: string)
    requires Lists(files, listing) && FileName(name) !in host.stuck && IsLabel(x) && NameLike(name)
             && x != "9" + IntText(Index(name))
    requires IsOrphan(files, active, Labelled(x, name))
    ensures var after := CleanUp(files, tables, host, active, listing).files;
            FileName(name) !in after && Labelled(x, name) in after
  {
    var orphan, orphans := Labelled(x, name), SelectOrphans(files, active, listing);
    LabelledInterface(x, name);
    FileNameIsLabelled(name);
    if FileName(name) == orphan {
      LabelUnique(x, "9" + Decimal(Index(name)), name);
    }
    SweepRemoves(Progress(files, tables, [], []), host, orphans);
    assert orphan in orphans;
    if orphan in Gone(host.stuck, orphans) {
      var g :| g in orphans && Target(g) == orphan;
      TargetIdempotent(g);
    }
  }

  /** A concrete case: cleaning up the orphan 99-multinic1.yaml removes 91-multinic1.yaml, which
      belongs to a live interface. */
  lemma ForeignExample(mac: string, live: string, tables: set<int>, host: Host)
    requires ToLower(mac) != ToLower(live) && mac != "" && live != ""
    requires Labelled("91", CanonicalName(1)) !in host.stuck
    ensures var orphan, own := Labelled("99", CanonicalName(1)), Labelled("91", CanonicalName(1));
            var files := map[orphan := File(Some([mac])), own := File(Some([live]))];
            var after := CleanUp(files, tables, host, {ToLower(live)}, [own, orphan]).files;
            !IsOrphan(files, {ToLower(live)}, own) && own !in after && orphan in after
  {
    var name := CanonicalName(1);
    var orphan, own := Labelled("99", name), Labelled("91", name);
    var files := map[orphan := File(Some([mac])), own := File(Some([live]))];
    ExampleName();
    if own == orphan {
      LabelUnique("91", "99", name);
    }
    LabelledIsMultinic("99", name);
    TwoFiles(own, live, orphan, mac);
    ForeignLabelRemovesOther(files, tables, host, {ToLower(live)}, [own, orphan], "99", name);
  }

  lemma TwoFiles(own: string, live: string, orphan: string, mac: string)
    requires own != orphan && IsMultinicFile(orphan)
    requires ToLower(mac) != ToLower(live) && mac != "" && live != ""
    ensures var files := map[orphan := File(Some([mac])), own := File(Some([live]))];
            && Lists(files, [own, orphan])
            && !IsOrphan(files, {ToLower(live)}, own) && IsOrphan(files, {ToLower(live)}, orphan)
  {
  }

  lemma ExampleName()
    ensures NameLike(CanonicalName(1)) && Index(CanonicalName(1)) == 1 && IsLabel("99")
    ensures FileName(CanonicalName(1)) == Labelled("91", CanonicalName(1)) && "99" != "9" + IntText(1)
  {
    CanonicalNameParses(1);
    ValidNameIsNameLike(CanonicalName(1));
    IndexOfValidName(CanonicalName(1));
    assert "99"[..1] == "9";
    assert "9" + IntText(1) == "91";
  }
}

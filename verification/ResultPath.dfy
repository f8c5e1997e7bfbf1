/** How the agent's failures travel through the exit code and the termination summary into the
    resource's state and its per-interface statuses. */
module ResultPath {
  import opened Text
  import opened Entities
  import opened Loader
  import Controller

  // ------------------------------------------------------ interface statuses

  datatype Failure = Failure(id: int, mac: string, reason: string)

  datatype Status = Status(index: nat, id: int, mac: string, failed: bool, message: string)

  function LastById(fs: seq<Failure>, id: int): Option<Failure> {
    if fs == [] then None
    else if fs[|fs| - 1].id == id then Some(fs[|fs| - 1])
    else LastById(fs[..|fs| - 1], id)
  }

  function MacKey(f: Failure): string { ToLower(TrimSpace(f.mac)) }

  function LastByMac(fs: seq<Failure>, mac: string): Option<Failure> {
    if fs == [] then None
    else if TrimSpace(fs[|fs| - 1].mac) != "" && MacKey(fs[|fs| - 1]) == mac then Some(fs[|fs| - 1])
    else LastByMac(fs[..|fs| - 1], mac)
  }

  /** The failure an entry is charged with: by a non-zero id first, by MAC otherwise. */
  function Charged(e: SpecEntry, fs: seq<Failure>): Option<Failure> {
    var mac := ToLower(e.mac);
    if LastById(fs, e.id).Some? && e.id != 0 then LastById(fs, e.id)
    else if LastByMac(fs, mac).Some? && mac != "" then LastByMac(fs, mac)
    else None
  }

  function StatusOf(i: nat, e: SpecEntry, fs: seq<Failure>): Status {
    match Charged(e, fs)
    case Some(f) => Status(i, f.id, ToLower(e.mac), true, f.reason)
    case None => Status(i, e.id, ToLower(e.mac), false, "")
  }

  /** The mapping all three copies of the controller code perform. */
  method MapStatuses(spec: seq<SpecEntry>, fs: seq<Failure>) returns (statuses: seq<Status>)
    ensures |statuses| == |spec|
    ensures forall i | 0 <= i < |spec| :: statuses[i] == StatusOf(i, spec[i], fs)
  {
    var failById: map<int, Failure> := map[];
    var failByMac: map<string, Failure> := map[];
    var k := 0;
    while k < |fs|
      invariant k <= |fs|
      invariant forall id :: LastById(fs[..k], id) == if id in failById then Some(failById[id]) else None
      invariant forall mac :: LastByMac(fs[..k], mac) == if mac in failByMac then Some(failByMac[mac]) else None
    {
      assert fs[..k + 1][..k] == fs[..k];
      failById := failById[fs[k].id := fs[k]];
      if TrimSpace(fs[k].mac) != "" {
        failByMac := failByMac[MacKey(fs[k]) := fs[k]];
      }
      k := k + 1;
    }
    assert fs[..k] == fs;
    statuses := [];
    var i := 0;
    while i < |spec|
      invariant i <= |spec| && |statuses| == i
      invariant forall j | 0 <= j < i :: statuses[j] == StatusOf(j, spec[j], fs)
    {
      var e := spec[i];
      var mac := ToLower(e.mac);
      if e.id in failById && e.id != 0 {
        statuses := statuses + [Status(i, failById[e.id].id, mac, true, failById[e.id].reason)];
      } else if mac in failByMac && mac != "" {
        statuses := statuses + [Status(i, failByMac[mac].id, mac, true, failByMac[mac].reason)];
      } else {
        statuses := statuses + [Status(i, e.id, mac, false, "")];
      }
      i := i + 1;
    }
  }

  /** Failure f is attributed to entry e. */
  predicate Hits(e: SpecEntry, f: Failure) {
    (e.id != 0 && f.id == e.id) || (ToLower(e.mac) != "" && TrimSpace(f.mac) != "" && MacKey(f) == ToLower(e.mac))
  }

  lemma {:induction false} LastByIdFinds(fs: seq<Failure>, id: int)
    ensures var r := LastById(fs, id);
            if r.Some? then r.value in fs && r.value.id == id else forall k | 0 <= k < |fs| :: fs[k].id != id
  {
    if fs != [] {
      LastByIdFinds(fs[..|fs| - 1], id);
    }
  }

  lemma {:induction false} LastByMacFinds(fs: seq<Failure>, mac: string)
    ensures var r := LastByMac(fs, mac);
            if r.Some? then r.value in fs && TrimSpace(r.value.mac) != "" && MacKey(r.value) == mac
            else forall k | 0 <= k < |fs| && TrimSpace(fs[k].mac) != "" :: MacKey(fs[k]) != mac
  {
    if fs != [] {
      LastByMacFinds(fs[..|fs| - 1], mac);
    }
  }

  /** An entry is marked Failed exactly when some failure hits it, and is charged with one that does. */
  lemma ChargedIff(e: SpecEntry, fs: seq<Failure>)
    ensures Charged(e, fs).Some? <==> exists k :: 0 <= k < |fs| && Hits(e, fs[k])
    ensures Charged(e, fs).Some? ==> Charged(e, fs).value in fs && Hits(e, Charged(e, fs).value)
  {
    LastByIdFinds(fs, e.id);
    LastByMacFinds(fs, ToLower(e.mac));
  }

  /** Failure k is the last one with this id. */
  predicate LastWithId(fs: seq<Failure>, id: int, k: nat) {
    k < |fs| && fs[k].id == id && forall j | k < j < |fs| :: fs[j].id != id
  }

  predicate OfMac(f: Failure, mac: string) { TrimSpace(f.mac) != "" && ToLower(TrimSpace(f.mac)) == mac }

  predicate LastWithMac(fs: seq<Failure>, mac: string, k: nat) {
    k < |fs| && OfMac(fs[k], mac) && forall j | k < j < |fs| :: !OfMac(fs[j], mac)
  }

  lemma {:induction false} LastByIdIsLast(fs: seq<Failure>, id: int, k: nat)
    requires LastWithId(fs, id, k)
    ensures LastById(fs, id) == Some(fs[k])
  {
    if k < |fs| - 1 {
      LastByIdIsLast(fs[..|fs| - 1], id, k);
    }
  }

  lemma {:induction false} LastByMacIsLast(fs: seq<Failure>, mac: string, k: nat)
    requires LastWithMac(fs, mac, k)
    ensures LastByMac(fs, mac) == Some(fs[k])
  {
    if k < |fs| - 1 {
      LastByMacIsLast(fs[..|fs| - 1], mac, k);
    }
  }

  /** The id comes before the MAC, and the last failure before the earlier ones: the status shows the
      last failure with the entry's non-zero id; only without one, the last with its MAC; and
      otherwise the entry's own id. Position and lower-case MAC are always the entry's. */
  lemma StatusShows(i: nat, e: SpecEntry, fs: seq<Failure>)
    ensures var s := StatusOf(i, e, fs);
            && s.index == i && s.mac == ToLower(e.mac)
            && (forall k: nat | e.id != 0 && LastWithId(fs, e.id, k) ::
                  s.failed && s.id == e.id && s.message == fs[k].reason)
            && ((e.id == 0 || forall j | 0 <= j < |fs| :: fs[j].id != e.id) ==>
                  forall k: nat | e.mac != "" && LastWithMac(fs, ToLower(e.mac), k) ::
                    s.failed && s.id == fs[k].id && s.message == fs[k].reason)
            && (!s.failed ==> s.id == e.id && s.message == "")
  {
    LastByIdFinds(fs, e.id);
    forall k: nat | e.id != 0 && LastWithId(fs, e.id, k) ensures LastById(fs, e.id) == Some(fs[k]) {
      LastByIdIsLast(fs, e.id, k);
    }
    forall k: nat | LastWithMac(fs, ToLower(e.mac), k) ensures LastByMac(fs, ToLower(e.mac)) == Some(fs[k]) {
      LastByMacIsLast(fs, ToLower(e.mac), k);
    }
  }

  // ----------------------------------------------------- truth of the marking

  /** The after-hook's record of the k-th loaded interface. */
  function FailureOf(spec: seq<SpecEntry>, ck: Checks, k: nat, reason: string): Failure
    requires k < |Kept(spec, ck)|
  {
    Failure(LoadedAt(spec, ck, k).id, LoadedAt(spec, ck, k).mac, reason)
  }

  /** The summary's failure list when the loaded interfaces `bad` fail, in that order. */
  function Report(spec: seq<SpecEntry>, ck: Checks, bad: seq<nat>, reason: nat -> string): seq<Failure>
    requires forall i | 0 <= i < |bad| :: bad[i] < |Kept(spec, ck)|
  {
    seq(|bad|, i requires 0 <= i < |bad| => FailureOf(spec, ck, bad[i], reason(bad[i])))
  }

  /** No interface's failure would be attributed to another entry. */
  ghost predicate CrossTalkFree(spec: seq<SpecEntry>, ck: Checks) {
    forall p, k | 0 <= p < |spec| && 0 <= k < |Kept(spec, ck)| && Kept(spec, ck)[k] != p ::
      !Hits(spec[p], FailureOf(spec, ck, k, ""))
  }

  /** The entry at p belongs to one of the failed interfaces. */
  predicate OwnFailed(spec: seq<SpecEntry>, ck: Checks, bad: seq<nat>, p: nat)
    requires forall i | 0 <= i < |bad| :: bad[i] < |Kept(spec, ck)|
  {
    exists i :: 0 <= i < |bad| && Kept(spec, ck)[bad[i]] == p
  }

  ghost predicate InRange(spec: seq<SpecEntry>, ck: Checks, bad: seq<nat>) {
    forall i | 0 <= i < |bad| :: bad[i] < |Kept(spec, ck)|
  }

  /** Whatever interfaces fail, exactly their entries are marked Failed. */
  ghost predicate AlwaysTruthful(spec: seq<SpecEntry>, ck: Checks) {
    forall bad: seq<nat>, p: nat | InRange(spec, ck, bad) && p < |spec| ::
      StatusOf(p, spec[p], Report(spec, ck, bad, k => "")).failed <==> OwnFailed(spec, ck, bad, p)
  }

  /** A loaded interface's own failure always hits its entry, through the MAC. */
  lemma OwnFailureHits(spec: seq<SpecEntry>, ck: Checks, k: nat, reason: string)
    requires k < |Kept(spec, ck)|
    ensures Hits(spec[Kept(spec, ck)[k]], FailureOf(spec, ck, k, reason))
  {
  }

  /** With no cross talk, a failure hits an entry exactly when it is the entry's own. */
  lemma HitsIffOwn(spec: seq<SpecEntry>, ck: Checks, k: nat, reason: string, p: nat)
    requires CrossTalkFree(spec, ck) && k < |Kept(spec, ck)| && p < |spec|
    ensures Hits(spec[p], FailureOf(spec, ck, k, reason)) <==> Kept(spec, ck)[k] == p
  {
    OwnFailureHits(spec, ck, k, reason);
    var f, g := FailureOf(spec, ck, k, reason), FailureOf(spec, ck, k, "");
    assert f.id == g.id && f.mac == g.mac && MacKey(f) == MacKey(g);
  }

  /** With no cross talk, an entry is marked Failed exactly when its own interface failed. */
  lemma MarkedIffOwnFailed(spec: seq<SpecEntry>, ck: Checks, bad: seq<nat>, reason: nat -> string, p: nat)
    requires CrossTalkFree(spec, ck) && InRange(spec, ck, bad) && p < |spec|
    ensures StatusOf(p, spec[p], Report(spec, ck, bad, reason)).failed <==> OwnFailed(spec, ck, bad, p)
  {
    var fs := Report(spec, ck, bad, reason);
    ChargedIff(spec[p], fs);
    forall i | 0 <= i < |bad| ensures Hits(spec[p], fs[i]) <==> Kept(spec, ck)[bad[i]] == p {
      HitsIffOwn(spec, ck, bad[i], reason(bad[i]), p);
    }
  }

  /** The message of a failed entry is the reason its own interface failed with, and the id is the
      one that interface was loaded under. */
  lemma MessageIsOwn(spec: seq<SpecEntry>, ck: Checks, bad: seq<nat>, reason: nat -> string, i: nat)
    requires CrossTalkFree(spec, ck) && InRange(spec, ck, bad) && i < |bad|
    ensures var p := Kept(spec, ck)[bad[i]];
            var s := StatusOf(p, spec[p], Report(spec, ck, bad, reason));
            s.failed && s.message == reason(bad[i]) && s.id == LoadedAt(spec, ck, bad[i]).id
  {
    var p, fs := Kept(spec, ck)[bad[i]], Report(spec, ck, bad, reason);
    ChargedIff(spec[p], fs);
    HitsIffOwn(spec, ck, bad[i], reason(bad[i]), p);
    assert Hits(spec[p], fs[i]);
    var c :| 0 <= c < |fs| && fs[c] == Charged(spec[p], fs).value;
    HitsIffOwn(spec, ck, bad[c], reason(bad[c]), p);
    KeptIsExact(spec, ck);
    assert bad[c] == bad[i];
  }

  /** The status report is truthful for every outcome exactly when the spec is free of cross talk,
      which can be checked before the agent runs. */
  lemma TruthfulIff(spec: seq<SpecEntry>, ck: Checks)
    ensures AlwaysTruthful(spec, ck) <==> CrossTalkFree(spec, ck)
  {
    if CrossTalkFree(spec, ck) {
      forall bad: seq<nat>, p: nat | InRange(spec, ck, bad) && p < |spec|
        ensures StatusOf(p, spec[p], Report(spec, ck, bad, k => "")).failed <==> OwnFailed(spec, ck, bad, p)
      {
        MarkedIffOwnFailed(spec, ck, bad, k => "", p);
      }
    } else {
      var p, k :| 0 <= p < |spec| && 0 <= k < |Kept(spec, ck)| && Kept(spec, ck)[k] != p
                  && Hits(spec[p], FailureOf(spec, ck, k, ""));
      var bad := [k];
      assert InRange(spec, ck, bad);
      var fs := Report(spec, ck, bad, k => "");
      assert fs[0] == FailureOf(spec, ck, k, "");
      ChargedIff(spec[p], fs);
      assert StatusOf(p, spec[p], fs).failed && !OwnFailed(spec, ck, bad, p);
    }
  }

  /** The documented convention: each entry is named multinic<id>, ids and MACs are distinct. */
  ghost predicate Conventional(spec: seq<SpecEntry>) {
    && (forall p | 0 <= p < |spec| :: 0 <= spec[p].id < MAX_INTERFACES && spec[p].name == CanonicalName(spec[p].id))
    && (forall p, q | 0 <= p < q < |spec| :: spec[p].id != spec[q].id && !EqualFold(spec[p].mac, spec[q].mac))
  }

  lemma ConventionSuffices(spec: seq<SpecEntry>, ck: Checks)
    requires Conventional(spec)
    ensures CrossTalkFree(spec, ck)
  {
    forall p, k | 0 <= p < |spec| && 0 <= k < |Kept(spec, ck)| && Kept(spec, ck)[k] != p
      ensures !Hits(spec[p], FailureOf(spec, ck, k, ""))
    {
      var q := Kept(spec, ck)[k];
      CanonicalNameParses(spec[q].id);
      MacNeedsNoTrim(spec[q].mac);
      assert spec[p].id != spec[q].id && !EqualFold(spec[p].mac, spec[q].mac);
    }
  }

  /** Distinct names, ids and MACs are not enough: the agent reports the id taken from the name, the
      controller looks up the id written in the spec. When the two disagree, a failure of the first
      interface is charged to the second entry. */
  lemma SwappedIdsCrossTalk(a: SpecEntry, b: SpecEntry, ck: Checks)
    requires a.name == CanonicalName(1) && a.id == 2 && b.name == CanonicalName(2) && b.id == 1
    requires ParsesAsMac(a.mac) && ValidNodeName(ck.nodeName) && ck.addressOk(a.address, a.cidr) && 68 <= a.mtu <= 65536
    ensures !CrossTalkFree([a, b], ck)
  {
    var spec := [a, b];
    CanonicalNameParses(1);
    KeptIsExact(spec, ck);
    assert Entity(0, spec[0], ck).Some?;
    var k :| 0 <= k < |Kept(spec, ck)| && Kept(spec, ck)[k] == 0;
    assert Hits(spec[1], FailureOf(spec, ck, k, ""));
  }

  // ------------------------------------------------------------ the verdict

  /** JOB_COMPLETE_ON_PARTIAL_FAILURE: unset or "true" in any case. */
  predicate CompleteOnPartial(env: string) { EqualFold(TrimSpace(env), "true") || env == "" }

  /** The setting is on exactly when the variable is empty or is the word true in any case, with
      white space around it or not. */
  lemma CompletesIff(env: string)
    ensures CompleteOnPartial("")
    ensures env != "" ==> (CompleteOnPartial(env) <==> IsTrueWord(TrimSpace(env)))
  {
    EqualFoldIff(TrimSpace(env), "true");
  }

  predicate IsTrueWord(t: string) {
    |t| == 4 && t[0] in {'t', 'T'} && t[1] in {'r', 'R'} && t[2] in {'u', 'U'} && t[3] in {'e', 'E'}
  }

  /** The agent exits with status 0. */
  predicate ExitsZero(processed: nat, failed: nat, env: string) {
    failed == 0 || (processed > 0 && CompleteOnPartial(env))
  }

  /** The branches of processNetworkConfigurations that set the result error. */
  method DecideExit(processed: nat, failed: nat, env: string) returns (error: bool)
    ensures error <==> !ExitsZero(processed, failed, env)
  {
    error := false;
    if failed > 0 {
      var completeOnPartial := EqualFold(TrimSpace(env), "true") || env == "";
      var allFailed := processed == 0;
      var partialFailed := processed > 0 && failed > 0;
      if allFailed {
        error := true;
      } else if partialFailed {
        if !completeOnPartial {
          error := true;
        }
      } else {
        error := true;
      }
    }
  }

  /** A Job whose pod has ended, and the failures that are read for it. */
  datatype Ended = Ended(job: Controller.Job, reported: nat)

  /** The summary is written when there is something to tell; it reaches the controller or it is lost. */
  function JobAfter(
      job: Controller.Job, processed: nat, failed: nat, failures: nat, env: string, reaches: bool): Ended {
    var reported := if reaches && (processed > 0 || failed > 0) then failures else 0;
    Ended(if ExitsZero(processed, failed, env) then job.(succeeded := 1) else job.(failed := 1), reported)
  }

  function StateAfter(e: Ended): Controller.CrState { Controller.Verdict(e.job, e.reported) }

  /** Without the summary the verdict can only err in one case: a partial failure that the agent was
      told to complete on. With the summary it is right whatever the partial-failure setting. */
  lemma VerdictIff(job: Controller.Job, processed: nat, failed: nat, env: string, reaches: bool)
    requires job.succeeded == 0
    ensures var v := StateAfter(JobAfter(job, processed, failed, failed, env, reaches));
            (v.Configured? <==> failed == 0) <==> (reaches || failed == 0 || processed == 0 || !CompleteOnPartial(env))
  {
  }

  /** Is entry p marked Failed once the finished Job is processed? With no failures to read the
      controller marks all entries alike, by the exit status. */
  predicate MarkedFailed(job: Controller.Job, spec: seq<SpecEntry>, fs: seq<Failure>, p: nat)
    requires p < |spec|
  {
    if fs != [] then StatusOf(p, spec[p], fs).failed else job.succeeded == 0
  }
}

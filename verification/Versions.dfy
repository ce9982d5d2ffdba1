/** Deployments, the versions the deployer gives to their workloads, and the rule by which
    a node applies an update.

    A hash stands for everything the hashed object holds, names included, so two objects
    with the same hash are the same object. */
module Versions {
  datatype Content = Content(kind: string, data: string, metadata: string, description: string)

  datatype Workload = Workload(name: string, version: nat, content: Content)

  datatype Deployment = Deployment(version: nat, metadata: string, workloads: seq<Workload>)

  predicate UniqueNames(ws: seq<Workload>) {
    forall i, j | 0 <= i < j < |ws| :: ws[i].name != ws[j].name
  }

  predicate Named(ws: seq<Workload>, name: string) {
    exists i | 0 <= i < |ws| :: ws[i].name == name
  }

  /** The last workload of each name, as a loop that fills a map leaves it. */
  function ByName(ws: seq<Workload>): (r: map<string, Workload>)
    decreases |ws|
  {
    if ws == [] then map[] else ByName(ws[..|ws| - 1])[ws[|ws| - 1].name := ws[|ws| - 1]]
  }

  lemma {:induction false} ByNameHas(ws: seq<Workload>, i: nat)
    requires i < |ws|
    ensures ws[i].name in ByName(ws)
    decreases |ws|
  {
    if i < |ws| - 1 {
      ByNameHas(ws[..|ws| - 1], i);
    }
  }

  lemma {:induction false} ByNameHasOnly(ws: seq<Workload>, name: string) returns (i: nat)
    requires name in ByName(ws)
    ensures i < |ws| && ws[i].name == name && ByName(ws)[name] == ws[i]
    decreases |ws|
  {
    i := |ws| - 1;
    if ws[i].name != name {
      i := ByNameHasOnly(ws[..i], name);
    }
  }

  /** The content each name stands for. */
  function ContentsOf(ws: seq<Workload>): (r: map<string, Content>)
    ensures r.Keys == ByName(ws).Keys
    ensures forall name | name in r :: r[name] == ByName(ws)[name].content
    decreases |ws|
  {
    if ws == [] then map[] else ContentsOf(ws[..|ws| - 1])[ws[|ws| - 1].name := ws[|ws| - 1].content]
  }

  /** What a deployment runs, regardless of versions. */
  function Contents(dl: Deployment): map<string, Content> {
    ContentsOf(dl.workloads)
  }

  lemma {:induction false} ByNameAt(ws: seq<Workload>, i: nat)
    requires UniqueNames(ws) && i < |ws|
    ensures ws[i].name in ByName(ws) && ByName(ws)[ws[i].name] == ws[i]
    decreases |ws|
  {
    if i < |ws| - 1 {
      ByNameAt(ws[..|ws| - 1], i);
    }
  }

  /** No name twice, and no workload newer than its deployment. */
  predicate WellVersioned(dl: Deployment) {
    UniqueNames(dl.workloads) && forall w | w in dl.workloads :: w.version <= dl.version
  }

  // ----- The deployer's side ------------------------------------------------------

  /** Workload `w` with the version its name has in `prev`, or 0. */
  function MatchedWorkload(prev: Deployment, w: Workload): Workload {
    w.(version := if w.name in ByName(prev.workloads) then ByName(prev.workloads)[w.name].version else 0)
  }

  /** The new deployment with the old versions. */
  function Matched(prev: Deployment, dl: Deployment): (r: Deployment)
    ensures r.version == prev.version && |r.workloads| == |dl.workloads|
    ensures forall i | 0 <= i < |dl.workloads| :: r.workloads[i] == MatchedWorkload(prev, dl.workloads[i])
  {
    dl.(version := prev.version,
        workloads := seq(|dl.workloads|, i requires 0 <= i < |dl.workloads| => MatchedWorkload(prev, dl.workloads[i])))
  }

  /** New or changed with respect to `prev`. */
  predicate Changed(prev: Deployment, ws: seq<Workload>, name: string) {
    name !in ByName(prev.workloads) || name !in ByName(ws) || ByName(prev.workloads)[name] != ByName(ws)[name]
  }

  /** The new deployment one version on, with that version on every workload that is new
      or changed. */
  function Assigned(prev: Deployment, dl: Deployment): (r: Deployment)
    ensures r.version == prev.version + 1 && |r.workloads| == |dl.workloads|
    ensures forall i | 0 <= i < |dl.workloads| ::
              r.workloads[i] == if Changed(prev, dl.workloads, dl.workloads[i].name)
                                then dl.workloads[i].(version := prev.version + 1) else dl.workloads[i]
  {
    dl.(version := prev.version + 1,
        workloads := seq(|dl.workloads|, i requires 0 <= i < |dl.workloads| =>
          if Changed(prev, dl.workloads, dl.workloads[i].name)
          then dl.workloads[i].(version := prev.version + 1) else dl.workloads[i]))
  }

  /** The deployment sent to update `prev` to `dl`. */
  function Update(prev: Deployment, dl: Deployment): Deployment {
    Assigned(prev, Matched(prev, dl))
  }

  /** Nothing to send: the hashes agree. */
  predicate SameAs(prev: Deployment, dl: Deployment) {
    Matched(prev, dl) == prev
  }

  // ----- The node's side ----------------------------------------------------------

  /** What one workload of an update becomes on the node: taken over when it carries the
      deployment's version, else left as it is there, which may be not at all. */
  function Applied(stored: Deployment, version: nat, w: Workload): seq<Workload> {
    if w.version == version then [w]
    else if w.name in ByName(stored.workloads) then [ByName(stored.workloads)[w.name]]
    else []
  }

  function AppliedAll(stored: Deployment, version: nat, ws: seq<Workload>): seq<Workload>
    decreases |ws|
  {
    if ws == [] then []
    else AppliedAll(stored, version, ws[..|ws| - 1]) + Applied(stored, version, ws[|ws| - 1])
  }

  /** What the node holds after an update; workloads not mentioned are deleted. */
  function NodeApply(stored: Deployment, dl: Deployment): Deployment {
    dl.(workloads := AppliedAll(stored, dl.version, dl.workloads))
  }

  // ----- Their agreement ----------------------------------------------------------

  lemma MatchedNames(prev: Deployment, dl: Deployment)
    requires UniqueNames(dl.workloads)
    ensures UniqueNames(Matched(prev, dl).workloads) && UniqueNames(Update(prev, dl).workloads)
  {
  }

  /** A workload of an update carries the new deployment version exactly when its name is
      new or its content differs; otherwise it is, version and all, the old workload. */
  lemma UpdateVersions(prev: Deployment, dl: Deployment, i: nat)
    requires WellVersioned(prev) && UniqueNames(dl.workloads) && i < |dl.workloads|
    ensures var w, u := dl.workloads[i], Update(prev, dl).workloads[i];
            && u.name == w.name && u.content == w.content
            && (u.version == Update(prev, dl).version <==>
                  w.name !in Contents(prev) || Contents(prev)[w.name] != w.content)
            && (u.version != Update(prev, dl).version ==>
                  w.name in ByName(prev.workloads) && u == ByName(prev.workloads)[w.name])
            && u.version <= Update(prev, dl).version
  {
    MatchedNames(prev, dl);
    var m := Matched(prev, dl);
    ByNameAt(m.workloads, i);
    var name := dl.workloads[i].name;
    if name in ByName(prev.workloads) {
      var j := ByNameHasOnly(prev.workloads, name);
      assert prev.workloads[j] in prev.workloads;
    }
  }

  /** Every update keeps versions at most the deployment's. */
  lemma UpdateWellVersioned(prev: Deployment, dl: Deployment)
    requires WellVersioned(prev) && UniqueNames(dl.workloads)
    ensures WellVersioned(Update(prev, dl)) && Update(prev, dl).version == prev.version + 1
  {
    MatchedNames(prev, dl);
    var u := Update(prev, dl);
    forall w | w in u.workloads ensures w.version <= u.version {
      var i :| 0 <= i < |u.workloads| && u.workloads[i] == w;
      UpdateVersions(prev, dl, i);
    }
  }

  lemma {:induction false} SameContents(a: seq<Workload>, b: seq<Workload>)
    requires |a| == |b| && forall i | 0 <= i < |a| :: a[i].name == b[i].name && a[i].content == b[i].content
    ensures ContentsOf(a) == ContentsOf(b)
    decreases |a|
  {
    if a != [] {
      SameContents(a[..|a| - 1], b[..|b| - 1]);
    }
  }

  lemma MatchedKeepsContents(prev: Deployment, dl: Deployment)
    ensures Contents(Matched(prev, dl)) == Contents(dl)
  {
    SameContents(Matched(prev, dl).workloads, dl.workloads);
  }

  lemma UpdateKeepsContents(prev: Deployment, dl: Deployment)
    ensures Contents(Update(prev, dl)) == Contents(dl)
  {
    MatchedKeepsContents(prev, dl);
    SameContents(Update(prev, dl).workloads, Matched(prev, dl).workloads);
  }

  /** The workload of an update is taken over, or it is the one the node holds. */
  predicate TakenOrHeld(stored: Deployment, version: nat, w: Workload) {
    w.version == version || (w.name in ByName(stored.workloads) && ByName(stored.workloads)[w.name] == w)
  }

  lemma AppliedSame(stored: Deployment, version: nat, w: Workload)
    requires TakenOrHeld(stored, version, w)
    ensures Applied(stored, version, w) == [w]
  {
  }

  lemma {:induction false} AppliedAllSame(stored: Deployment, version: nat, ws: seq<Workload>)
    requires forall i | 0 <= i < |ws| :: TakenOrHeld(stored, version, ws[i])
    ensures AppliedAll(stored, version, ws) == ws
    decreases |ws|
  {
    if ws != [] {
      var k := |ws| - 1;
      AppliedAllSame(stored, version, ws[..k]);
      AppliedSame(stored, version, ws[k]);
      assert ws == ws[..k] + [ws[k]];
    }
  }

  /** The node's incremental rule, fed the deployer's versions, has the effect of replacing
      everything: the node ends with the very deployment it was sent, running exactly the
      requested workloads. */
  lemma UpdateIsReplacement(prev: Deployment, dl: Deployment)
    requires WellVersioned(prev) && UniqueNames(dl.workloads)
    ensures NodeApply(prev, Update(prev, dl)) == Update(prev, dl)
    ensures Contents(NodeApply(prev, Update(prev, dl))) == Contents(dl)
  {
    var u := Update(prev, dl);
    forall i | 0 <= i < |u.workloads| ensures TakenOrHeld(prev, u.version, u.workloads[i]) {
      UpdateVersions(prev, dl, i);
    }
    AppliedAllSame(prev, u.version, u.workloads);
    UpdateKeepsContents(prev, dl);
  }

  /** Nothing is sent only when nothing would change. */
  lemma SameRunsTheSame(prev: Deployment, dl: Deployment)
    requires SameAs(prev, dl)
    ensures Contents(prev) == Contents(dl)
  {
    MatchedKeepsContents(prev, dl);
  }

  // ----- A hash without names -----------------------------------------------------------

  /** The same but for the names: what a hash that does not hold them cannot tell apart. */
  predicate SameButNames(a: Deployment, b: Deployment) {
    && a.version == b.version && a.metadata == b.metadata && |a.workloads| == |b.workloads|
    && forall i | 0 <= i < |a.workloads| ::
         a.workloads[i].version == b.workloads[i].version && a.workloads[i].content == b.workloads[i].content
  }

  /** Such hashes agree, and the names of `prev` are all among the new ones. */
  predicate Skipped(prev: Deployment, dl: Deployment) {
    && SameButNames(prev, Matched(prev, dl))
    && forall i | 0 <= i < |prev.workloads| :: Named(dl.workloads, prev.workloads[i].name)
  }

  function Names(ws: seq<Workload>): set<string>
    decreases |ws|
  {
    if ws == [] then {} else Names(ws[..|ws| - 1]) + {ws[|ws| - 1].name}
  }

  lemma {:induction false} NamesAre(ws: seq<Workload>, name: string)
    ensures name in Names(ws) <==> Named(ws, name)
    ensures name in Names(ws) <==> name in ContentsOf(ws)
    decreases |ws|
  {
    if ws != [] {
      var k := |ws| - 1;
      NamesAre(ws[..k], name);
      if i :| 0 <= i < |ws| && ws[i].name == name && i < k { assert ws[..k][i].name == name; }
      if i :| 0 <= i < k && ws[..k][i].name == name { assert ws[i].name == name; }
    }
  }

  lemma {:induction false} NamesSize(ws: seq<Workload>)
    requires UniqueNames(ws)
    ensures |Names(ws)| == |ws|
    decreases |ws|
  {
    if ws != [] {
      var k := |ws| - 1;
      NamesSize(ws[..k]);
      NamesAre(ws[..k], ws[k].name);
    }
  }

  /** As many names, all of the one among the other, are the same names. */
  lemma NamesMatch(a: seq<Workload>, b: seq<Workload>)
    requires UniqueNames(a) && UniqueNames(b) && |a| == |b|
    requires forall i | 0 <= i < |a| :: Named(b, a[i].name)
    ensures Names(a) == Names(b)
  {
    NamesSize(a);
    NamesSize(b);
    forall name | name in Names(a) ensures name in Names(b) {
      NamesAre(a, name);
      NamesAre(b, name);
    }
    assert |Names(b) - Names(a)| == |Names(b)| - |Names(a)|;
  }

  lemma ContentsAt(ws: seq<Workload>, i: nat)
    requires UniqueNames(ws) && i < |ws|
    ensures ws[i].name in ContentsOf(ws) && ContentsOf(ws)[ws[i].name] == ws[i].content
  {
    ByNameAt(ws, i);
  }

  /** No name has moved to a place that held another content. */
  predicate NamesStay(prev: Deployment, dl: Deployment) {
    forall i | 0 <= i < |dl.workloads| && i < |prev.workloads| ::
      dl.workloads[i].name in Contents(prev) ==> Contents(prev)[dl.workloads[i].name] == prev.workloads[i].content
  }

  /** What a skipped request asks for has the old content place by place, under the old names. */
  lemma SkippedContents(prev: Deployment, dl: Deployment)
    requires UniqueNames(prev.workloads) && UniqueNames(dl.workloads) && Skipped(prev, dl)
    ensures forall name :: name in Contents(prev) <==> name in Contents(dl)
    ensures forall i | 0 <= i < |dl.workloads| ::
              dl.workloads[i].name in Contents(dl) && Contents(dl)[dl.workloads[i].name] == prev.workloads[i].content
  {
    NamesMatch(prev.workloads, dl.workloads);
    forall name ensures name in Contents(prev) <==> name in Contents(dl) {
      NamesAre(prev.workloads, name);
      NamesAre(dl.workloads, name);
    }
    forall i | 0 <= i < |dl.workloads|
      ensures dl.workloads[i].name in Contents(dl) && Contents(dl)[dl.workloads[i].name] == prev.workloads[i].content
    {
      ContentsAt(dl.workloads, i);
      assert Matched(prev, dl).workloads[i].content == dl.workloads[i].content;
    }
  }

  /** If hashes held no names, skipping an update would be right exactly when no name has moved
      to a place that held another content. */
  lemma SkippedIsRightIff(prev: Deployment, dl: Deployment)
    requires UniqueNames(prev.workloads) && UniqueNames(dl.workloads) && Skipped(prev, dl)
    ensures Contents(prev) == Contents(dl) <==> NamesStay(prev, dl)
  {
    SkippedContents(prev, dl);
    if NamesStay(prev, dl) {
      forall name | name in Contents(dl) ensures Contents(prev)[name] == Contents(dl)[name] {
        var i := ByNameHasOnly(dl.workloads, name);
      }
    }
  }

  function TwoWorkloads(first: string, second: string): Deployment {
    Deployment(0, "",
      [Workload(first, 0, Content("zmachine", "x", "", "")), Workload(second, 0, Content("zmachine", "y", "", ""))])
  }

  /** Two workloads that swap their names would be skipped and keep running as they were. */
  lemma SwapIsSkipped(first: string, second: string)
    requires first != second
    ensures var prev, dl := TwoWorkloads(first, second), TwoWorkloads(second, first);
            && UniqueNames(prev.workloads) && UniqueNames(dl.workloads)
            && Skipped(prev, dl) && Contents(prev) != Contents(dl)
  {
    var prev, dl := TwoWorkloads(first, second), TwoWorkloads(second, first);
    SwapLooksAlike(prev, dl);
    SwapMoves(prev, dl);
  }

  lemma SwapLooksAlike(prev: Deployment, dl: Deployment)
    requires |prev.workloads| == 2 && prev.workloads[0].name != prev.workloads[1].name
    requires prev == TwoWorkloads(prev.workloads[0].name, prev.workloads[1].name)
    requires dl == TwoWorkloads(prev.workloads[1].name, prev.workloads[0].name)
    ensures Skipped(prev, dl)
  {
    ByNameAt(prev.workloads, 0);
    ByNameAt(prev.workloads, 1);
    assert dl.workloads[1].name == prev.workloads[0].name && dl.workloads[0].name == prev.workloads[1].name;
  }

  lemma SwapMoves(prev: Deployment, dl: Deployment)
    requires |prev.workloads| == 2 == |dl.workloads| && UniqueNames(prev.workloads) && UniqueNames(dl.workloads)
    requires dl.workloads[1].name == prev.workloads[0].name
    requires prev.workloads[0].content.data == "x" && dl.workloads[1].content.data == "y"
    ensures Contents(prev) != Contents(dl)
  {
    ContentsAt(prev.workloads, 0);
    ContentsAt(dl.workloads, 1);
    assert "x"[0] != "y"[0];
  }

  /** The node's side after a run of requests, each skipped or sent. */
  function AfterRequests(stored: Deployment, requests: seq<Deployment>): Deployment
    decreases |requests|
  {
    if requests == [] then stored
    else
      var before := AfterRequests(stored, requests[..|requests| - 1]);
      var dl := requests[|requests| - 1];
      if SameAs(before, dl) then before else NodeApply(before, Update(before, dl))
  }

  /** Over any run of updates the node runs what was last requested, and no workload ever
      overtakes its deployment's version. */
  lemma {:induction false} RequestsTakeEffect(stored: Deployment, requests: seq<Deployment>)
    requires WellVersioned(stored) && forall r | r in requests :: UniqueNames(r.workloads)
    ensures WellVersioned(AfterRequests(stored, requests))
    ensures requests != [] ==> Contents(AfterRequests(stored, requests)) == Contents(requests[|requests| - 1])
    decreases |requests|
  {
    if requests != [] {
      var before := AfterRequests(stored, requests[..|requests| - 1]);
      var dl := requests[|requests| - 1];
      RequestsTakeEffect(stored, requests[..|requests| - 1]);
      UpdateIsReplacement(before, dl);
      UpdateWellVersioned(before, dl);
      if SameAs(before, dl) { SameRunsTheSame(before, dl); }
    }
  }

  /** The version each name carries. */
  function VersionsOf(ws: seq<Workload>): (r: map<string, nat>)
    ensures r.Keys == ByName(ws).Keys
    decreases |ws|
  {
    if ws == [] then map[] else VersionsOf(ws[..|ws| - 1])[ws[|ws| - 1].name := ws[|ws| - 1].version]
  }

  lemma VersionsSnoc(ws: seq<Workload>, i: nat)
    requires i < |ws|
    ensures VersionsOf(ws[..i + 1]) == VersionsOf(ws[..i])[ws[i].name := ws[i].version]
  {
    assert ws[..i + 1][..i] == ws[..i];
  }

  lemma {:induction false} VersionsAt(ws: seq<Workload>, i: nat)
    requires UniqueNames(ws) && i < |ws|
    ensures ws[i].name in VersionsOf(ws) && VersionsOf(ws)[ws[i].name] == ws[i].version
    decreases |ws|
  {
    ByNameAt(ws, i);
    if i < |ws| - 1 {
      VersionsAt(ws[..|ws| - 1], i);
    }
  }

  // ----- The code -------------------------------------------------------------------

  /** The workload hashes by name. */
  method GetWorkloadHashes(dl: Deployment) returns (hashes: map<string, Workload>)
    ensures hashes == ByName(dl.workloads)
  {
    hashes := map[];
    for i := 0 to |dl.workloads|
      invariant hashes == ByName(dl.workloads[..i])
    {
      assert dl.workloads[..i + 1][..i] == dl.workloads[..i];
      hashes := hashes[dl.workloads[i].name := dl.workloads[i]];
    }
    assert dl.workloads[..|dl.workloads|] == dl.workloads;
  }

  /** Whether two deployments have workloads of the same names; lists of equal length whose
      names are not repeated are compared exactly. */
  method SameWorkloadsNames(d1: Deployment, d2: Deployment) returns (same: bool)
    ensures same <==> |d1.workloads| == |d2.workloads|
                      && forall i | 0 <= i < |d2.workloads| :: Named(d1.workloads, d2.workloads[i].name)
  {
    if |d1.workloads| != |d2.workloads| { return false; }
    var names: set<string> := {};
    for i := 0 to |d1.workloads|
      invariant forall name :: name in names <==> exists j | 0 <= j < i :: d1.workloads[j].name == name
    {
      names := names + {d1.workloads[i].name};
    }
    for i := 0 to |d2.workloads|
      invariant forall j | 0 <= j < i :: Named(d1.workloads, d2.workloads[j].name)
    {
      if d2.workloads[i].name !in names {
        assert !Named(d1.workloads, d2.workloads[i].name);
        return false;
      }
    }
    same := true;
  }

  /** A deployment being prepared: its versions are overwritten in place. */
  class Draft {
    var version: nat
    var metadata: string
    var workloads: seq<Workload>

    function Value(): Deployment
      reads this
    {
      Deployment(version, metadata, workloads)
    }

    constructor (dl: Deployment)
      ensures Value() == dl
    {
      version, metadata, workloads := dl.version, dl.metadata, dl.workloads;
    }

    method MatchOldVersions(oldDl: Deployment)
      modifies this
      ensures Value() == Matched(oldDl, old(Value()))
    {
      var oldVersions := GetWorkloadHashes(oldDl);
      version := oldDl.version;
      ghost var target := Matched(oldDl, old(Value())).workloads;
      for i := 0 to |workloads|
        invariant |workloads| == |old(workloads)| && version == oldDl.version && metadata == old(metadata)
        invariant workloads[..i] == target[..i] && workloads[i..] == old(workloads)[i..]
      {
        var w := workloads[i];
        assert w == old(workloads)[i..][0];
        workloads := workloads[i := w.(version := if w.name in oldVersions then oldVersions[w.name].version else 0)];
        assert workloads[i] == target[i];
      }
      assert workloads == target;
    }

    /** Gives the new version to what is new or changed, and says which version to wait for
        on each name. */
    method AssignVersions(oldDl: Deployment) returns (expected: map<string, nat>)
      modifies this
      ensures Value() == Assigned(oldDl, old(Value()))
      ensures expected == VersionsOf(workloads)
    {
      var oldHashes := GetWorkloadHashes(oldDl);
      var newHashes := GetWorkloadHashes(Value());
      expected := map[];
      version := oldDl.version + 1;
      ghost var source := workloads;
      ghost var target := Assigned(oldDl, old(Value())).workloads;
      for i := 0 to |workloads|
        invariant |workloads| == |source| == |target|
        invariant version == oldDl.version + 1 && metadata == old(metadata)
        invariant forall j | 0 <= j < |source| :: workloads[j] == if j < i then target[j] else source[j]
        invariant expected == VersionsOf(target[..i])
      {
        var w := workloads[i];
        ByNameHas(source, i);
        assert target[i] == if Changed(oldDl, source, w.name) then w.(version := version) else w;
        if w.name !in oldHashes || newHashes[w.name] != oldHashes[w.name] {
          workloads := workloads[i := w.(version := version)];
        }
        expected := expected[w.name := workloads[i].version];
        VersionsSnoc(target, i);
      }
      assert workloads == target && target[..|target|] == target;
    }
  }
}

/**
  Dispatch by project type (`sync_project`) and the batch driver (`main`): every
  configured project is synced in order on the state its predecessors left, an
  exception ends only its own project, and the exit status is 1 exactly when some
  project reported an update.
*/
module Batch {
  import opened Common
  import opened Patterns
  import opened Ledger
  import opened Executor

  /** `sync_project`: the `type` key, defaulting to "release", selects the executor; any other type is skipped. */
  function SyncProjectStep(dirs: map<string, Listing>, p: Project, net: Network): (r: Step)
    ensures r.outcome.Updated? ==> p.name.Some?
    ensures p.kind.None? || p.kind == Some("release") ==> r == SyncReleaseStep(dirs, p, net)
    ensures p.kind == Some("action") ==> r == SyncActionStep(dirs, p, net)
    ensures p.kind.Some? && p.kind.value != "release" && p.kind.value != "action" ==> r == Step(dirs, NotUpdated)
  {
    var kind := p.kind.GetOr("release");
    if kind == "release" then SyncReleaseStep(dirs, p, net)
    else if kind == "action" then SyncActionStep(dirs, p, net)
    else Step(dirs, NotUpdated)
  }

  /** The file system after the batch, and the names of the projects that reported an update. */
  datatype Summary = Summary(dirs: map<string, Listing>, updated: seq<string>)

  /** One project's sync as `main` sees it: the state it leaves and its outcome. */
  type ProjectSync = (map<string, Listing>, Project) -> Step

  /** `sync_project` against a given upstream. */
  function SyncWith(net: Network): ProjectSync {
    (dirs, p) => SyncProjectStep(dirs, p, net)
  }

  /** The names `main` appends after one project: its name when it reported an update (a missing `name` raises inside the `try`, so nothing is appended). */
  function Collected(outcome: Outcome, p: Project): (names: seq<string>)
    ensures names != [] <==> outcome.Updated? && p.name.Some?
    ensures |names| <= 1 && forall n :: n in names ==> p.name == Some(n)
  {
    if outcome.Updated? && p.name.Some? then [p.name.value] else []
  }

  /** The loop of `main`: each project in order on the state the previous ones left; a failure ends only its own project. */
  function Sweep(dirs: map<string, Listing>, ps: seq<Project>, step: ProjectSync): (r: Summary)
    ensures |r.updated| <= |ps|
    decreases |ps|
  {
    if ps == [] then Summary(dirs, [])
    else
      var s := step(dirs, ps[0]);
      var rest := Sweep(s.dirs, ps[1..], step);
      Summary(rest.dirs, Collected(s.outcome, ps[0]) + rest.updated)
  }

  /** The process exit status for `main`'s result. */
  function ExitStatus(hasUpdates: bool): (code: int)
    ensures code == 0 || code == 1
    ensures code == 1 <==> hasUpdates
  {
    if hasUpdates then 1 else 0
  }

  /** Project `i`, synced on the state the projects before it left, has its name collected. */
  predicate UpdatesAt(dirs: map<string, Listing>, ps: seq<Project>, step: ProjectSync, i: int)
    requires 0 <= i < |ps|
  {
    Collected(step(Sweep(dirs, ps[..i], step).dirs, ps[i]).outcome, ps[i]) != []
  }

  /** Seen from the second project on, the state the first project left is where the batch starts. */
  lemma UpdatesAtShift(dirs: map<string, Listing>, ps: seq<Project>, step: ProjectSync, j: int)
    requires 0 <= j < |ps| - 1
    ensures UpdatesAt(step(dirs, ps[0]).dirs, ps[1..], step, j) == UpdatesAt(dirs, ps, step, j + 1)
  {
    assert ps[..j + 1][0] == ps[0];
    assert ps[..j + 1][1..] == ps[1..][..j];
    assert ps[1..][j] == ps[j + 1];
  }

  /** Reference list: the names of projects `i` onwards that report an update, in configuration order. */
  function ReportedNames(dirs: map<string, Listing>, ps: seq<Project>, step: ProjectSync, i: nat): seq<string>
    requires i <= |ps|
    decreases |ps| - i
  {
    if i == |ps| then []
    else (if UpdatesAt(dirs, ps, step, i) then [ps[i].name.value] else []) + ReportedNames(dirs, ps, step, i + 1)
  }

  /** Failure isolation: a batch is its first part followed by the rest, whatever the first part's projects did. */
  lemma {:induction false} SweepSplit(dirs: map<string, Listing>, ps: seq<Project>, qs: seq<Project>, step: ProjectSync)
    ensures var first := Sweep(dirs, ps, step);
      var second := Sweep(first.dirs, qs, step);
      Sweep(dirs, ps + qs, step) == Summary(second.dirs, first.updated + second.updated)
    decreases |ps|
  {
    if ps == [] {
      assert ps + qs == qs;
    } else {
      var s := step(dirs, ps[0]);
      SweepSplit(s.dirs, ps[1..], qs, step);
      assert (ps + qs)[0] == ps[0];
      assert (ps + qs)[1..] == ps[1..] + qs;
    }
  }

  /** One turn of `main`'s loop: the rest of the batch is this project's names followed by the batch after it. */
  lemma SweepAdvance(dirs: map<string, Listing>, ps: seq<Project>, i: nat, step: ProjectSync)
    requires i < |ps|
    ensures var s := step(dirs, ps[i]);
      var rest := Sweep(s.dirs, ps[i + 1..], step);
      Sweep(dirs, ps[i..], step) == Summary(rest.dirs, Collected(s.outcome, ps[i]) + rest.updated)
  {
    assert ps[i..][0] == ps[i] && ps[i..][1..] == ps[i + 1..];
  }

  /** The exit status is 1 exactly when some project reported an update. */
  lemma {:induction false} ExitStatusIffSomeUpdate(dirs: map<string, Listing>, ps: seq<Project>, step: ProjectSync)
    ensures ExitStatus(|Sweep(dirs, ps, step).updated| > 0) == 1 <==> exists i :: 0 <= i < |ps| && UpdatesAt(dirs, ps, step, i)
    decreases |ps|
  {
    if ps != [] {
      var s := step(dirs, ps[0]);
      ExitStatusIffSomeUpdate(s.dirs, ps[1..], step);
      assert ps[..0] == [];
      assert UpdatesAt(dirs, ps, step, 0) == (Collected(s.outcome, ps[0]) != []);
      forall j | 0 <= j < |ps[1..]|
        ensures UpdatesAt(s.dirs, ps[1..], step, j) == UpdatesAt(dirs, ps, step, j + 1)
      {
        UpdatesAtShift(dirs, ps, step, j);
      }
      if exists i :: 0 <= i < |ps| && UpdatesAt(dirs, ps, step, i) {
        var i :| 0 <= i < |ps| && UpdatesAt(dirs, ps, step, i);
        if i > 0 {
          assert UpdatesAt(s.dirs, ps[1..], step, i - 1);
        }
      }
    }
  }

  /** Upstream publish timestamps always parse. */
  ghost predicate DatedReleases(net: Network) {
    forall repo: string, prerelease: bool ::
      net.latestRelease(repo, prerelease).Found? ==> net.latestRelease(repo, prerelease).value.publishedAt.Instant?
  }

  /** Idempotence: syncing a project again with no upstream change reports no update and changes nothing. */
  lemma SyncTwiceIsNoOp(dirs: map<string, Listing>, p: Project, net: Network)
    requires DatedReleases(net)
    requires SyncProjectStep(dirs, p, net).outcome.Updated?
    ensures var r := SyncProjectStep(dirs, p, net);
      SyncProjectStep(r.dirs, p, net) == Step(r.dirs, NotUpdated)
  {
    var patterns := p.assetPatterns.GetOr(DefaultPatterns);
    if p.kind.GetOr("release") == "release" {
      var reply := net.latestRelease(p.repo.value, p.includePrerelease.GetOr(false));
      assert SyncReleaseStep(dirs, p, net).outcome.Updated?;
      assert reply.Found?;
      var repo, prerelease := p.repo.value, p.includePrerelease.GetOr(false);
      assert net.latestRelease(repo, prerelease).Found? ==> net.latestRelease(repo, prerelease).value.publishedAt.Instant?;
      ReapplyIsNoOp(dirs, p.targetDir.value, patterns, ReleaseCandidate(reply.value), net.download, patterns, net.download);
    } else {
      var reply := net.latestRun(p.repo.value, p.workflowFile);
      ReapplyIsNoOp(dirs, p.targetDir.value, patterns, RunCandidate(reply.value), net.download, patterns, net.download);
    }
  }

  /** `ReportedNames` from the second project on, started where the first project left the file system. */
  lemma {:induction false} ReportedNamesShift(dirs: map<string, Listing>, ps: seq<Project>, step: ProjectSync, j: nat)
    requires 0 < |ps| && j <= |ps| - 1
    ensures ReportedNames(step(dirs, ps[0]).dirs, ps[1..], step, j) == ReportedNames(dirs, ps, step, j + 1)
    decreases |ps| - j
  {
    if j < |ps| - 1 {
      ReportedNamesShift(dirs, ps, step, j + 1);
      UpdatesAtShift(dirs, ps, step, j);
      assert ps[1..][j] == ps[j + 1];
    }
  }

  /** `main` collects exactly the names of the projects that report an update, in configuration order. */
  lemma {:induction false} SweepCollectsReportedNames(dirs: map<string, Listing>, ps: seq<Project>, step: ProjectSync)
    ensures Sweep(dirs, ps, step).updated == ReportedNames(dirs, ps, step, 0)
    decreases |ps|
  {
    if ps != [] {
      var s := step(dirs, ps[0]);
      SweepCollectsReportedNames(s.dirs, ps[1..], step);
      ReportedNamesShift(dirs, ps, step, 0);
      assert ps[..0] == [];
      assert UpdatesAt(dirs, ps, step, 0) == (Collected(s.outcome, ps[0]) != []);
    }
  }

  /** A name is in `ReportedNames` from `i` on exactly when some project from `i` on with that name reports an update. */
  lemma {:induction false} ReportedNamesMembers(dirs: map<string, Listing>, ps: seq<Project>, step: ProjectSync, i: nat)
    requires i <= |ps|
    ensures forall n :: n in ReportedNames(dirs, ps, step, i) <==>
      exists j :: i <= j < |ps| && UpdatesAt(dirs, ps, step, j) && ps[j].name == Some(n)
    decreases |ps| - i
  {
    if i < |ps| {
      ReportedNamesMembers(dirs, ps, step, i + 1);
      forall n
        ensures n in ReportedNames(dirs, ps, step, i) <==>
          exists j :: i <= j < |ps| && UpdatesAt(dirs, ps, step, j) && ps[j].name == Some(n)
      {
        if exists j :: i <= j < |ps| && UpdatesAt(dirs, ps, step, j) && ps[j].name == Some(n) {
          var j :| i <= j < |ps| && UpdatesAt(dirs, ps, step, j) && ps[j].name == Some(n);
          if j > i {
            assert n in ReportedNames(dirs, ps, step, i + 1);
          }
        }
      }
    }
  }

  /** A name is collected exactly when a configured project with that name reports an update. */
  lemma UpdatedNamesAreReported(dirs: map<string, Listing>, ps: seq<Project>, step: ProjectSync)
    ensures forall n :: n in Sweep(dirs, ps, step).updated <==>
      exists i :: 0 <= i < |ps| && UpdatesAt(dirs, ps, step, i) && ps[i].name == Some(n)
  {
    SweepCollectsReportedNames(dirs, ps, step);
    ReportedNamesMembers(dirs, ps, step, 0);
  }

  /**
    First sync of a release project with default settings: the directory is created, the
    one asset is downloaded, the ledger is written and an update is reported; a second
    run with the same upstream state reports no update and changes nothing.
  */
  lemma FirstReleaseSync(dirs: map<string, Listing>, p: Project, net: Network, release: Release, asset: FileInfo)
    requires p.name.Some? && p.repo.Some? && p.targetDir.Some? && p.targetDir.value !in dirs
    requires p.kind.None? && p.assetPatterns.None? && p.includePrerelease.None?
    requires net.latestRelease(p.repo.value, false) == Found(release)
    requires release.assets == [asset] && |asset.name| > 0 && Wild(asset.name[0]) && asset.name != VersionFile
    requires net.download(asset.url).Saved?
    ensures var r := SyncProjectStep(dirs, p, net);
      && r.outcome.Updated?
      && r.dirs[p.targetDir.value] == map[asset.name := File(Downloaded(asset.url)), VersionFile := File(Record(RecordFor(ReleaseCandidate(release))))]
      && (release.publishedAt.Instant? ==> SyncProjectStep(r.dirs, p, net) == Step(r.dirs, NotUpdated))
  {
    var c := ReleaseCandidate(release);
    DefaultSelectsEveryName(asset.name);
    assert Reset(map[]) == map[];
    var d1 := map[asset.name := File(Downloaded(asset.url))];
    assert PassFrom(d1, 1, c, DefaultPatterns, net.download, 1) == Completed(d1, 1);
    assert PassFrom(map[], 0, c, DefaultPatterns, net.download, 0) == Completed(d1, 1);
    var r := SyncProjectStep(dirs, p, net);
    if release.publishedAt.Instant? {
      ReapplyIsNoOp(dirs, p.targetDir.value, DefaultPatterns, c, net.download, DefaultPatterns, net.download);
    }
  }

  /** `sync_project`. */
  method SyncProject(tree: Tree, p: Project, net: Network) returns (outcome: Outcome)
    modifies tree
    ensures Step(tree.dirs, outcome) == SyncProjectStep(old(tree.dirs), p, net)
  {
    var kind := p.kind.GetOr("release");
    if kind == "release" {
      outcome := tree.SyncRelease(p, net);
    } else if kind == "action" {
      outcome := tree.SyncAction(p, net);
    } else {
      outcome := NotUpdated;
    }
  }

  /** `main` without its console output: sync every project, collect the updated names, report whether any. */
  method SyncAll(tree: Tree, projects: seq<Project>, net: Network) returns (updated: seq<string>, hasUpdates: bool)
    modifies tree
    ensures Summary(tree.dirs, updated) == Sweep(old(tree.dirs), projects, SyncWith(net))
    ensures hasUpdates == (|updated| > 0)
  {
    updated := [];
    var i := 0;
    while i < |projects|
      invariant 0 <= i <= |projects|
      invariant Sweep(old(tree.dirs), projects, SyncWith(net)).dirs == Sweep(tree.dirs, projects[i..], SyncWith(net)).dirs
      invariant Sweep(old(tree.dirs), projects, SyncWith(net)).updated == updated + Sweep(tree.dirs, projects[i..], SyncWith(net)).updated
    {
      ghost var before := tree.dirs;
      // an exception inside the project is caught here and the loop goes on
      var outcome := SyncProject(tree, projects[i], net);
      assert SyncWith(net)(before, projects[i]) == Step(tree.dirs, outcome);
      SweepAdvance(before, projects, i, SyncWith(net));
      ghost var rest := Sweep(tree.dirs, projects[i + 1..], SyncWith(net)).updated;
      assert updated + (Collected(outcome, projects[i]) + rest) == (updated + Collected(outcome, projects[i])) + rest;
      updated := updated + Collected(outcome, projects[i]);
      i := i + 1;
    }
    assert projects[i..] == [];
    hasUpdates := |updated| > 0;
  }
}

/**
  The sync executor (`sync_release_project`, `sync_action_project`): query the
  candidate, create the target directory, stop if the ledger says it is current,
  otherwise empty the directory except `.version.json`, download the selected
  files and save the ledger. The file system is a map from each target directory
  to its listing; the network is an oracle value.
*/
module Executor {
  import opened Common
  import opened Patterns
  import opened Naming
  import opened Ledger

  /** The ledger's file name inside each target directory. */
  const VersionFile: string := ".version.json"

  /** What a regular file holds: bytes fetched from a URL, or a ledger record. */
  datatype Content = Downloaded(url: string) | Record(rec: LedgerRecord)

  /** An entry of a directory listing. */
  datatype Entry = File(content: Content) | Folder

  type Listing = map<string, Entry>

  /** How `download_file` ends: status 200 and written, another status, or an exception. */
  datatype Fetch = Saved | BadStatus | FetchRaised

  /** How an upstream query ends: a result, `None`, or an exception. */
  datatype Reply<T> = Found(value: T) | NoReply | ReplyRaised

  /** The upstream hosting service, as the oracle the sync consults. */
  datatype Network = Network(
    latestRelease: (string, bool) -> Reply<Release>,        // get_latest_release(repo, include_prerelease)
    latestRun: (string, Option<string>) -> Reply<Run>,      // get_latest_action_artifact(repo, workflow_file)
    download: string -> Fetch)                              // download_file(url, save_path)

  /** One entry of the configuration's project list; every key may be absent. */
  datatype Project = Project(
    name: Option<string>,
    repo: Option<string>,
    targetDir: Option<string>,
    kind: Option<string>,
    assetPatterns: Option<seq<string>>,
    includePrerelease: Option<bool>,
    workflowFile: Option<string>)

  /** A project's sync ends by returning True, returning False, or raising. */
  datatype Outcome = Updated | NotUpdated | Aborted(failure: Failure)

  /** The file system after a sync, and how the sync ended. */
  datatype Step = Step(dirs: map<string, Listing>, outcome: Outcome)

  /** The download loop ends after the last file, or at the first exception. */
  datatype Pass = Completed(dir: Listing, count: nat) | Interrupted(dir: Listing, failure: Failure)

  /** The listing of `target` after `os.makedirs(target, exist_ok=True)`. */
  function DirAt(dirs: map<string, Listing>, target: string): Listing {
    if target in dirs then dirs[target] else map[]
  }

  /** Reading `.version.json`: absent, a record, or a failure to read it as one. */
  function ReadLedger(d: Listing): (r: Option<Result<LedgerRecord>>)
    ensures r.None? <==> VersionFile !in d
    ensures r.Some? && r.value.Ok? <==> VersionFile in d && d[VersionFile].File? && d[VersionFile].content.Record?
    ensures r.Some? && r.value.Ok? ==> d[VersionFile] == File(Record(r.value.value))
    ensures r.Some? && r.value.Err? ==> r.value.failure == LedgerUnreadable
  {
    if VersionFile !in d then None
    else match d[VersionFile]
      case File(Record(rec)) => Some(Ok(rec))
      case _ => Some(Err(LedgerUnreadable))
  }

  /** The ledger exists, reads, and `needs_update` answers False: the sync stops here. */
  predicate Current(d: Listing, c: Candidate) {
    var ledger := ReadLedger(d);
    ledger.Some? && ledger.value.Ok? && NeedsUpdate(Some(ledger.value.value), c) == Ok(false)
  }

  /** The directory reset: every entry except `.version.json` removed. */
  function Reset(d: Listing): (r: Listing)
    ensures r.Keys <= {VersionFile}
    ensures VersionFile in d ==> VersionFile in r && r[VersionFile] == d[VersionFile]
  {
    map n | n in d && n == VersionFile :: d[n]
  }

  /** The entries of `d` still listed in `names`, and the ledger. */
  ghost function Kept(d: Listing, names: set<string>): Listing {
    map n | n in d && (n in names || n == VersionFile) :: d[n]
  }

  /** The name a candidate file is saved under. */
  function SavedName(c: Candidate, name: string): (saved: string)
    ensures c.ReleaseCandidate? ==> saved == name
    ensures c.RunCandidate? ==> EndsWithZip(saved) && (saved == name || saved == name + ".zip")
    ensures c.RunCandidate? && EndsWithZip(name) ==> saved == name
  {
    if c.RunCandidate? then ArtifactFileName(name) else name
  }

  /** File `k` of the candidate is selected, fetched with status 200, and saved as `n`. */
  predicate Fetches(c: Candidate, patterns: seq<string>, download: string -> Fetch, k: int, n: string)
    requires 0 <= k < |c.Files()|
  {
    var f := c.Files()[k];
    ShouldDownload(f.name, patterns) && download(f.url).Saved? && SavedName(c, f.name) == n
  }

  /** The download loop from file `i` on, starting from listing `d` with `count` files downloaded. */
  function PassFrom(d: Listing, count: nat, c: Candidate, patterns: seq<string>, download: string -> Fetch, i: nat): (p: Pass)
    requires i <= |c.Files()|
    ensures d.Keys <= p.dir.Keys
    ensures p.Completed? ==> count <= p.count <= count + (|c.Files()| - i)
    decreases |c.Files()| - i
  {
    if i == |c.Files()| then Completed(d, count)
    else
      var f := c.Files()[i];
      if !ShouldDownload(f.name, patterns) then PassFrom(d, count, c, patterns, download, i + 1)
      else
        var name := SavedName(c, f.name);
        match download(f.url)
        case BadStatus => PassFrom(d, count, c, patterns, download, i + 1)
        case FetchRaised => Interrupted(d, DownloadRaised(f.url))
        case Saved =>
          if name in d && d[name].Folder? then Interrupted(d, WriteRaised(name))
          else PassFrom(d[name := File(Downloaded(f.url))], count + 1, c, patterns, download, i + 1)
  }

  /** The ledger check: whether the sync goes on (`needs_update` when the ledger exists, else True), or the failure it raises. */
  function Decide(d: Listing, c: Candidate): (r: Result<bool>)
    ensures r == Ok(false) <==> Current(d, c)
    ensures VersionFile !in d ==> r == Ok(true)
  {
    match ReadLedger(d)
    case None => Ok(true)
    case Some(Err(e)) => Err(e)
    case Some(Ok(rec)) => NeedsUpdate(Some(rec), c)
  }

  /** Reset the directory, download the selected files, then save the ledger. */
  function Adopt(dirs: map<string, Listing>, target: string, patterns: seq<string>, c: Candidate, download: string -> Fetch): (r: Step)
    requires target in dirs
    ensures r.dirs.Keys == dirs.Keys
    ensures !r.outcome.NotUpdated?
    ensures r.outcome.Updated? ==> VersionFile in r.dirs[target] && r.dirs[target][VersionFile] == File(Record(RecordFor(c)))
  {
    match PassFrom(Reset(dirs[target]), 0, c, patterns, download, 0)
    case Interrupted(d', e) => Step(dirs[target := d'], Aborted(e))
    case Completed(d', _) => Step(dirs[target := d'[VersionFile := File(Record(RecordFor(c)))]], Updated)
  }

  /** A sync once the candidate is known: create the directory, check the ledger, then reset, download and save. */
  function Apply(dirs: map<string, Listing>, target: string, patterns: seq<string>, c: Candidate, download: string -> Fetch): (r: Step)
    ensures r.dirs.Keys == dirs.Keys + {target}
    ensures forall t :: t in dirs && t != target ==> r.dirs[t] == dirs[t]
    ensures r.outcome.NotUpdated? <==> Current(DirAt(dirs, target), c)
    ensures r.outcome.NotUpdated? ==> r.dirs == dirs[target := DirAt(dirs, target)]
    ensures r.outcome.Updated? ==> VersionFile in r.dirs[target] && r.dirs[target][VersionFile] == File(Record(RecordFor(c)))
  {
    var d := DirAt(dirs, target);
    match Decide(d, c)
    case Err(e) => Step(dirs[target := d], Aborted(e))
    case Ok(proceed) =>
      if proceed then Adopt(dirs[target := d], target, patterns, c, download)
      else Step(dirs[target := d], NotUpdated)
  }

  /** `sync_release_project`. */
  function SyncReleaseStep(dirs: map<string, Listing>, p: Project, net: Network): (r: Step)
    ensures r.outcome.Updated? ==> p.name.Some? && p.targetDir.Some?
    ensures p.repo.None? ==> r == Step(dirs, Aborted(ConfigKeyMissing("repo")))
    ensures p.repo.Some? && p.targetDir.None? ==> r == Step(dirs, Aborted(ConfigKeyMissing("target_dir")))
    ensures p.repo.Some? && p.targetDir.Some? && p.name.None? ==> r == Step(dirs, Aborted(ConfigKeyMissing("name")))
    ensures !r.outcome.Updated? && p.targetDir.Some? ==> r.dirs.Keys <= dirs.Keys + {p.targetDir.value}
    ensures p.repo.Some? && p.targetDir.Some? && p.name.Some? ==>
      var reply := net.latestRelease(p.repo.value, p.includePrerelease.GetOr(false));
      && (reply.NoReply? ==> r == Step(dirs, NotUpdated))
      && (reply.ReplyRaised? ==> r == Step(dirs, Aborted(QueryRaised)))
      && (reply.Found? ==>
            r == Apply(dirs, p.targetDir.value, p.assetPatterns.GetOr(DefaultPatterns), ReleaseCandidate(reply.value), net.download))
    ensures r.outcome.Updated? ==> p.repo.Some? && p.targetDir.Some?
    ensures r.outcome.Updated? ==>
      var reply := net.latestRelease(p.repo.value, p.includePrerelease.GetOr(false));
      && reply.Found?
      && p.targetDir.value in r.dirs && VersionFile in r.dirs[p.targetDir.value]
      && r.dirs[p.targetDir.value][VersionFile] == File(Record(RecordFor(ReleaseCandidate(reply.value))))
  {
    if p.repo.None? then Step(dirs, Aborted(ConfigKeyMissing("repo")))
    else if p.targetDir.None? then Step(dirs, Aborted(ConfigKeyMissing("target_dir")))
    else if p.name.None? then Step(dirs, Aborted(ConfigKeyMissing("name")))
    else
      var patterns := p.assetPatterns.GetOr(DefaultPatterns);
      match net.latestRelease(p.repo.value, p.includePrerelease.GetOr(false))
      case ReplyRaised => Step(dirs, Aborted(QueryRaised))
      case NoReply => Step(dirs, NotUpdated)
      case Found(release) => Apply(dirs, p.targetDir.value, patterns, ReleaseCandidate(release), net.download)
  }

  /** `sync_action_project`. */
  function SyncActionStep(dirs: map<string, Listing>, p: Project, net: Network): (r: Step)
    ensures r.outcome.Updated? ==> p.name.Some? && p.targetDir.Some?
    ensures p.repo.None? ==> r == Step(dirs, Aborted(ConfigKeyMissing("repo")))
    ensures p.repo.Some? && p.targetDir.None? ==> r == Step(dirs, Aborted(ConfigKeyMissing("target_dir")))
    ensures p.repo.Some? && p.targetDir.Some? && p.name.None? ==> r == Step(dirs, Aborted(ConfigKeyMissing("name")))
    ensures !r.outcome.Updated? && p.targetDir.Some? ==> r.dirs.Keys <= dirs.Keys + {p.targetDir.value}
    ensures p.repo.Some? && p.targetDir.Some? && p.name.Some? ==>
      var reply := net.latestRun(p.repo.value, p.workflowFile);
      && (reply.NoReply? ==> r == Step(dirs, NotUpdated))
      && (reply.ReplyRaised? ==> r == Step(dirs, Aborted(QueryRaised)))
      && (reply.Found? ==>
            r == Apply(dirs, p.targetDir.value, p.assetPatterns.GetOr(DefaultPatterns), RunCandidate(reply.value), net.download))
    ensures r.outcome.Updated? ==> p.repo.Some? && p.targetDir.Some?
    ensures r.outcome.Updated? ==>
      var reply := net.latestRun(p.repo.value, p.workflowFile);
      && reply.Found?
      && p.targetDir.value in r.dirs && VersionFile in r.dirs[p.targetDir.value]
      && r.dirs[p.targetDir.value][VersionFile] == File(Record(RecordFor(RunCandidate(reply.value))))
  {
    if p.repo.None? then Step(dirs, Aborted(ConfigKeyMissing("repo")))
    else if p.targetDir.None? then Step(dirs, Aborted(ConfigKeyMissing("target_dir")))
    else if p.name.None? then Step(dirs, Aborted(ConfigKeyMissing("name")))
    else
      var patterns := p.assetPatterns.GetOr(DefaultPatterns);
      match net.latestRun(p.repo.value, p.workflowFile)
      case ReplyRaised => Step(dirs, Aborted(QueryRaised))
      case NoReply => Step(dirs, NotUpdated)
      case Found(run) => Apply(dirs, p.targetDir.value, patterns, RunCandidate(run), net.download)
  }

  /** The download loop keeps every earlier entry or overwrites it with a file fetched from a later candidate file. */
  lemma {:induction false} PassOrigins(d: Listing, count: nat, c: Candidate, patterns: seq<string>, download: string -> Fetch, i: nat)
    requires i <= |c.Files()|
    ensures var p := PassFrom(d, count, c, patterns, download, i);
      && d.Keys <= p.dir.Keys
      && forall n :: n in p.dir ==>
           (n in d && p.dir[n] == d[n])
           || exists k :: i <= k < |c.Files()| && Fetches(c, patterns, download, k, n)
                          && p.dir[n] == File(Downloaded(c.Files()[k].url))
    decreases |c.Files()| - i
  {
    if i < |c.Files()| {
      var f := c.Files()[i];
      var name := SavedName(c, f.name);
      if ShouldDownload(f.name, patterns) && download(f.url).Saved? && !(name in d && d[name].Folder?) {
        var d' := d[name := File(Downloaded(f.url))];
        PassOrigins(d', count + 1, c, patterns, download, i + 1);
        assert Fetches(c, patterns, download, i, name);
      } else if ShouldDownload(f.name, patterns) && !download(f.url).BadStatus? {
      } else {
        PassOrigins(d, count, c, patterns, download, i + 1);
      }
    }
  }

  /** A download loop that completes holds file `k` under its saved name when it was selected and fetched with status 200. */
  lemma {:induction false} PassKeepsFetched(d: Listing, count: nat, c: Candidate, patterns: seq<string>, download: string -> Fetch,
                                            i: nat, k: nat, n: string)
    requires i <= k < |c.Files()| && Fetches(c, patterns, download, k, n)
    requires PassFrom(d, count, c, patterns, download, i).Completed?
    ensures n in PassFrom(d, count, c, patterns, download, i).dir
    decreases k - i
  {
    var f := c.Files()[i];
    var name := SavedName(c, f.name);
    if ShouldDownload(f.name, patterns) && download(f.url).Saved? && !(name in d && d[name].Folder?) {
      if i < k {
        PassKeepsFetched(d[name := File(Downloaded(f.url))], count + 1, c, patterns, download, i + 1, k, n);
      }
    } else if i < k {
      PassKeepsFetched(d, count, c, patterns, download, i + 1, k, n);
    }
  }

  /** A download loop that completes holds every selected file fetched with status 200. */
  lemma PassCompleteness(d: Listing, count: nat, c: Candidate, patterns: seq<string>, download: string -> Fetch, i: nat)
    requires i <= |c.Files()|
    ensures var p := PassFrom(d, count, c, patterns, download, i);
      p.Completed? ==> forall k, n :: i <= k < |c.Files()| && Fetches(c, patterns, download, k, n) ==> n in p.dir
  {
    forall k, n | i <= k < |c.Files()| && Fetches(c, patterns, download, k, n) && PassFrom(d, count, c, patterns, download, i).Completed?
      ensures n in PassFrom(d, count, c, patterns, download, i).dir
    {
      PassKeepsFetched(d, count, c, patterns, download, i, k, n);
    }
  }

  /** When every download answers with a failing status, the loop writes nothing and completes. */
  lemma {:induction false} PassAllRefused(d: Listing, count: nat, c: Candidate, patterns: seq<string>, download: string -> Fetch, i: nat)
    requires i <= |c.Files()|
    requires forall k :: 0 <= k < |c.Files()| ==> download(c.Files()[k].url).BadStatus?
    ensures PassFrom(d, count, c, patterns, download, i) == Completed(d, count)
    decreases |c.Files()| - i
  {
    if i < |c.Files()| {
      PassAllRefused(d, count, c, patterns, download, i + 1);
    }
  }

  /** Reset scope: after an adopted update the directory holds the ledger and exactly the files fetched in this pass. */
  lemma UpdatedDirectoryContents(dirs: map<string, Listing>, target: string, patterns: seq<string>, c: Candidate, download: string -> Fetch)
    requires Apply(dirs, target, patterns, c, download).outcome.Updated?
    ensures var d := Apply(dirs, target, patterns, c, download).dirs[target];
      && (forall n :: n in d && n != VersionFile ==>
            exists k :: 0 <= k < |c.Files()| && Fetches(c, patterns, download, k, n)
                        && d[n] == File(Downloaded(c.Files()[k].url)))
      && (forall k, n :: 0 <= k < |c.Files()| && Fetches(c, patterns, download, k, n) ==> n in d)
  {
    var d0 := DirAt(dirs, target);
    PassOrigins(Reset(d0), 0, c, patterns, download, 0);
    PassCompleteness(Reset(d0), 0, c, patterns, download, 0);
  }

  /** A sync that goes past the ledger check reports an update even when every download fails; only the ledger remains. */
  lemma UpdatedDespiteFailedDownloads(dirs: map<string, Listing>, target: string, patterns: seq<string>, c: Candidate, download: string -> Fetch)
    requires Decide(DirAt(dirs, target), c) == Ok(true)
    requires forall k :: 0 <= k < |c.Files()| ==> download(c.Files()[k].url).BadStatus?
    ensures var r := Apply(dirs, target, patterns, c, download);
      r.outcome.Updated? && r.dirs[target] == map[VersionFile := File(Record(RecordFor(c)))]
  {
    var d0 := DirAt(dirs, target);
    PassAllRefused(Reset(d0), 0, c, patterns, download, 0);
    assert Reset(d0)[VersionFile := File(Record(RecordFor(c)))] == map[VersionFile := File(Record(RecordFor(c)))];
  }

  /** No selected file of the candidate is saved under the ledger's own name. */
  predicate SparesLedger(c: Candidate, patterns: seq<string>) {
    forall k :: 0 <= k < |c.Files()| && ShouldDownload(c.Files()[k].name, patterns) ==> SavedName(c, c.Files()[k].name) != VersionFile
  }

  /** Crash safety: unless the update is adopted, the ledger file is exactly as it was (absent stays absent). */
  lemma LedgerKeptUnlessUpdated(dirs: map<string, Listing>, target: string, patterns: seq<string>, c: Candidate, download: string -> Fetch)
    requires SparesLedger(c, patterns)
    requires !Apply(dirs, target, patterns, c, download).outcome.Updated?
    ensures var d0 := DirAt(dirs, target);
      var d := Apply(dirs, target, patterns, c, download).dirs[target];
      && (VersionFile in d <==> VersionFile in d0)
      && (VersionFile in d0 ==> d[VersionFile] == d0[VersionFile])
  {
    var d0 := DirAt(dirs, target);
    if Decide(d0, c) == Ok(true) {
      var p := PassFrom(Reset(d0), 0, c, patterns, download, 0);
      PassOrigins(Reset(d0), 0, c, patterns, download, 0);
    }
  }

  /** Idempotence: re-applying an adopted candidate reports no update and changes nothing, whatever the patterns or downloads. */
  lemma ReapplyIsNoOp(dirs: map<string, Listing>, target: string, patterns: seq<string>, c: Candidate, download: string -> Fetch,
                      patterns': seq<string>, download': string -> Fetch)
    requires Dated(c)
    requires Apply(dirs, target, patterns, c, download).outcome.Updated?
    ensures var r := Apply(dirs, target, patterns, c, download);
      Apply(r.dirs, target, patterns', c, download') == Step(r.dirs, NotUpdated)
  {
    var r := Apply(dirs, target, patterns, c, download);
    SavedCandidateIsCurrent(c);
    assert Current(DirAt(r.dirs, target), c);
    assert r.dirs[target := DirAt(r.dirs, target)] == r.dirs;
  }

  /** Stale releases are rejected: after adopting B, a release published no later than B is not an update. */
  lemma StaleReleaseRejected(dirs: map<string, Listing>, target: string, patterns: seq<string>, b: Release, download: string -> Fetch,
                             a: Release, patterns': seq<string>, download': string -> Fetch)
    requires a.publishedAt.Instant? && b.publishedAt.Instant? && a.publishedAt.t <= b.publishedAt.t
    requires Apply(dirs, target, patterns, ReleaseCandidate(b), download).outcome.Updated?
    ensures var r := Apply(dirs, target, patterns, ReleaseCandidate(b), download);
      Apply(r.dirs, target, patterns', ReleaseCandidate(a), download') == Step(r.dirs, NotUpdated)
  {
    var r := Apply(dirs, target, patterns, ReleaseCandidate(b), download);
    assert Current(DirAt(r.dirs, target), ReleaseCandidate(a));
    assert r.dirs[target := DirAt(r.dirs, target)] == r.dirs;
  }

  /** A newer release, a run with another id, or a candidate of the other kind gets past the ledger check. */
  lemma SupersedingCandidateProceeds(dirs: map<string, Listing>, target: string, patterns: seq<string>, c: Candidate, download: string -> Fetch,
                                     c': Candidate, patterns': seq<string>, download': string -> Fetch)
    requires Apply(dirs, target, patterns, c, download).outcome.Updated?
    requires || c.Kind() != c'.Kind()
             || (c.RunCandidate? && c'.RunCandidate? && c.run.id != c'.run.id)
             || (c.ReleaseCandidate? && c'.ReleaseCandidate? && c.release.publishedAt.Instant? && c'.release.publishedAt.Instant?
                 && c.release.publishedAt.t < c'.release.publishedAt.t)
    ensures var r := Apply(dirs, target, patterns, c, download);
      Decide(r.dirs[target], c') == Ok(true) && !Apply(r.dirs, target, patterns', c', download').outcome.NotUpdated?
  {
    var r := Apply(dirs, target, patterns, c, download);
    assert ReadLedger(r.dirs[target]) == Some(Ok(RecordFor(c)));
  }

  /** Every target directory of one run of the program. */
  class Tree {
    var dirs: map<string, Listing>

    constructor (initial: map<string, Listing>)
      ensures dirs == initial
    {
      dirs := initial;
    }

    /** `os.makedirs(target_dir, exist_ok=True)`. */
    method MakeDirs(target: string)
      modifies this
      ensures dirs == old(dirs)[target := DirAt(old(dirs), target)]
    {
      if target !in dirs {
        dirs := dirs[target := map[]];
      }
    }

    /** The loop over `os.listdir(target_dir)` removing every entry but `.version.json`. */
    method ClearDir(target: string)
      requires target in dirs
      modifies this
      ensures dirs == old(dirs)[target := Reset(old(dirs)[target])]
    {
      ghost var d0 := dirs[target];
      var names := dirs[target].Keys;
      assert Kept(d0, names) == d0;
      while names != {}
        invariant names <= d0.Keys
        invariant dirs == old(dirs)[target := Kept(d0, names)]
        decreases names
      {
        var n :| n in names;
        if n != VersionFile {
          // os.remove for a file, shutil.rmtree for a directory: either way the entry goes
          dirs := dirs[target := dirs[target] - {n}];
          assert Kept(d0, names) - {n} == Kept(d0, names - {n});
        } else {
          assert Kept(d0, names) == Kept(d0, names - {n});
        }
        names := names - {n};
      }
      assert Kept(d0, names) == Reset(d0);
    }

    /** The loop over the candidate's files, downloading each selected one. */
    method DownloadFiles(target: string, c: Candidate, patterns: seq<string>, download: string -> Fetch)
      returns (count: nat, failure: Option<Failure>)
      requires target in dirs
      modifies this
      ensures var p := PassFrom(old(dirs)[target], 0, c, patterns, download, 0);
        && dirs == old(dirs)[target := p.dir]
        && (p.Completed? ==> failure.None? && count == p.count)
        && (p.Interrupted? ==> failure == Some(p.failure))
    {
      count, failure := 0, None;
      var files := c.Files();
      var i := 0;
      while i < |files|
        invariant 0 <= i <= |files|
        invariant target in dirs && dirs == old(dirs)[target := dirs[target]]
        invariant PassFrom(dirs[target], count, c, patterns, download, i) == PassFrom(old(dirs)[target], 0, c, patterns, download, 0)
      {
        ghost var d, k := dirs[target], count;
        var f := files[i];
        if ShouldDownload(f.name, patterns) {
          var name := SavedName(c, f.name);
          var fetched := download(f.url);
          if fetched.FetchRaised? {
            failure := Some(DownloadRaised(f.url));
            assert PassFrom(d, k, c, patterns, download, i) == Interrupted(d, DownloadRaised(f.url));
            return;
          }
          if fetched.Saved? {
            if name in dirs[target] && dirs[target][name].Folder? {
              failure := Some(WriteRaised(name));
              assert PassFrom(d, k, c, patterns, download, i) == Interrupted(d, WriteRaised(name));
              return;
            }
            dirs := dirs[target := dirs[target][name := File(Downloaded(f.url))]];
            count := count + 1;
          }
        }
        assert PassFrom(d, k, c, patterns, download, i) == PassFrom(dirs[target], count, c, patterns, download, i + 1);
        i := i + 1;
      }
    }

    /** `save_version_info`: build the record, listing every candidate file in order, and write it. */
    method SaveVersionInfo(target: string, c: Candidate)
      requires target in dirs
      modifies this
      ensures dirs == old(dirs)[target := old(dirs)[target][VersionFile := File(Record(RecordFor(c)))]]
    {
      var files := c.Files();
      var listed: seq<FileInfo> := [];
      var i := 0;
      while i < |files|
        invariant 0 <= i <= |files|
        invariant listed == files[..i]
      {
        listed := listed + [FileInfo(files[i].name, files[i].size, files[i].url)];
        i := i + 1;
      }
      assert listed == files;
      var rec := match c
        case ReleaseCandidate(r) =>
          LedgerRecord(Some("release"), Some(r.tagName), Some(r.publishedAt), None, None, None, None, Some(listed), None)
        case RunCandidate(r) =>
          LedgerRecord(Some("action"), None, None, Some(r.id), Some(r.runNumber), Some(r.createdAt), Some(r.workflowName), None, Some(listed));
      assert rec == RecordFor(c);
      dirs := dirs[target := dirs[target][VersionFile := File(Record(rec))]];
    }

    /** The reset loop, the download loop, then the ledger write. */
    method AdoptCandidate(target: string, patterns: seq<string>, c: Candidate, download: string -> Fetch)
      returns (outcome: Outcome)
      requires target in dirs
      modifies this
      ensures Step(dirs, outcome) == Adopt(old(dirs), target, patterns, c, download)
    {
      ghost var pass := PassFrom(Reset(old(dirs)[target]), 0, c, patterns, download, 0);
      ClearDir(target);
      assert dirs[target] == Reset(old(dirs)[target]);
      ghost var cleared := dirs;
      var count, failure := DownloadFiles(target, c, patterns, download);
      assert dirs == cleared[target := pass.dir];
      assert dirs == old(dirs)[target := pass.dir];
      if failure.Some? {
        assert pass.Interrupted?;
        return Aborted(failure.value);
      }
      assert pass.Completed?;
      SaveVersionInfo(target, c);
      assert dirs == old(dirs)[target := pass.dir[VersionFile := File(Record(RecordFor(c)))]];
      outcome := Updated;
    }

    /** What `sync_release_project` and `sync_action_project` do once the candidate is known: create the directory, check the ledger, then reset, download and save. */
    method ApplyCandidate(target: string, patterns: seq<string>, c: Candidate, download: string -> Fetch)
      returns (outcome: Outcome)
      modifies this
      ensures Step(dirs, outcome) == Apply(old(dirs), target, patterns, c, download)
    {
      MakeDirs(target);
      var ledger := ReadLedger(dirs[target]);
      if ledger.Some? {
        if ledger.value.Err? {
          return Aborted(ledger.value.failure);
        }
        var decision := NeedsUpdate(Some(ledger.value.value), c);
        if decision.Err? {
          return Aborted(decision.failure);
        }
        if !decision.value {
          return NotUpdated;
        }
      }
      outcome := AdoptCandidate(target, patterns, c, download);
    }

    /** `sync_release_project`. */
    method SyncRelease(p: Project, net: Network) returns (outcome: Outcome)
      modifies this
      ensures Step(dirs, outcome) == SyncReleaseStep(old(dirs), p, net)
    {
      if p.repo.None? {
        return Aborted(ConfigKeyMissing("repo"));
      }
      if p.targetDir.None? {
        return Aborted(ConfigKeyMissing("target_dir"));
      }
      var patterns := p.assetPatterns.GetOr(DefaultPatterns);
      var includePrerelease := p.includePrerelease.GetOr(false);
      if p.name.None? {
        return Aborted(ConfigKeyMissing("name"));
      }
      var reply := net.latestRelease(p.repo.value, includePrerelease);
      match reply {
        case ReplyRaised => outcome := Aborted(QueryRaised);
        case NoReply => outcome := NotUpdated;
        case Found(release) => outcome := ApplyCandidate(p.targetDir.value, patterns, ReleaseCandidate(release), net.download);
      }
    }

    /** `sync_action_project`. */
    method SyncAction(p: Project, net: Network) returns (outcome: Outcome)
      modifies this
      ensures Step(dirs, outcome) == SyncActionStep(old(dirs), p, net)
    {
      if p.repo.None? {
        return Aborted(ConfigKeyMissing("repo"));
      }
      if p.targetDir.None? {
        return Aborted(ConfigKeyMissing("target_dir"));
      }
      var patterns := p.assetPatterns.GetOr(DefaultPatterns);
      if p.name.None? {
        return Aborted(ConfigKeyMissing("name"));
      }
      var reply := net.latestRun(p.repo.value, p.workflowFile);
      match reply {
        case ReplyRaised => outcome := Aborted(QueryRaised);
        case NoReply => outcome := NotUpdated;
        case Found(run) => outcome := ApplyCandidate(p.targetDir.value, patterns, RunCandidate(run), net.download);
      }
    }
  }
}

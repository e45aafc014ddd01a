# auto-sync-releases: the change-detection and sync engine, in Dafny

`sync.py` mirrors the latest GitHub release, or the artifacts of the latest
completed workflow run, of each configured project into a local directory. It
skips a project when the ledger file `.version.json` in that directory says
the upstream state is already current. It exits with status 1 when any project
was updated. This project models the engine around the HTTP calls:

- asset selection by pattern (`should_download_asset`);
- the `.zip` naming rule for artifacts;
- the ledger record and the `needs_update` decision;
- the two sync procedures (`sync_release_project`, `sync_action_project`), which
  create the directory, check the ledger, reset the directory, download and save;
- the dispatch by project type (`sync_project`);
- the batch driver (`main`) and its exit status.

Layout, one module per component:

| file | module | models |
|---|---|---|
| common.dfy | `Common` | `Option`, `Result`, and the exceptions a project's sync can raise (`Failure`) |
| patterns.dfy | `Patterns` | `pattern.replace('*', '.*')`, the regular-expression subset this produces, `re.match` as a prefix match, `should_download_asset` |
| naming.dfy | `Naming` | `name.lower().endswith('.zip')` and the saved artifact name |
| ledger.dfy | `Ledger` | upstream candidates, the `.version.json` record, `save_version_info`'s record, `needs_update` |
| executor.dfy | `Executor` | the target directories as a `Tree` object holding a map from directory to listing; the reset loop, the download loop, the ledger write, both sync procedures |
| batch.dfy | `Batch` | `sync_project`, the loop of `main`, the exit status |

The two sync procedures and `main` change state step by step. Each one is a
method of the `Tree` class, or a method over a `Tree`, with loop invariants.
Each method is proved equal to a specification function: `PassFrom`, `Apply`,
`SyncReleaseStep`, `SyncActionStep`, `SyncProjectStep` and `Sweep`. The
properties are lemmas about those functions.

External collaborators are parameters. A `Network` value stands for the
upstream service: `latestRelease(repo, include_prerelease)` and
`latestRun(repo, workflow_file)` return a result, `None` or an exception, and
`download(url)` answers "saved", "other status" or "exception". A raised
exception is an `Aborted(failure)` outcome. The directory state reached
before the exception is kept, as on disk, and the batch goes on with the next
project.

Behaviour of the code worth knowing:
- In a pattern, `.` is a regular-expression wildcard, not a literal.
- Python's `.` does not match a line feed. So the default list `['.*']`, which
  becomes `..*`, selects exactly the names that are non-empty and do not start
  with `\n` (`Patterns.DefaultSelectsEveryName`).
- A sync returns False without raising in two cases only: the ledger is
  already current, or the upstream query has no answer. A download that gets
  a status other than 200 is skipped, and the sync goes on. Every other error
  (a missing config key, an unreadable ledger, a bad timestamp, a download
  that raises) escapes the project as an exception.
  `main` catches it.
- The reset happens before the downloads. A download that raises therefore
  leaves the directory holding only the files fetched before it
  (`Executor.PassOrigins`) and the old ledger, so the next run retries the
  update (`Executor.LedgerKeptUnlessUpdated`).

## Model

| member | source | states |
|---|---|---|
| `Patterns.StarToDotStar` | sync.py:103 | after `replace('*', '.*')` every `*` directly follows a `.`, and a non-empty result does not start with `*` |
| `Patterns.CompileStarToDotStar` | sync.py:103 | reading the rewritten pattern as `re` does gives the glob reading of the pattern: `*` is a run, `.` is one character, anything else is a literal |
| `Patterns.SelectsByGlob` | sync.py:103 | `re.match` of the rewritten pattern succeeds iff the glob reading of the pattern matches a prefix of the name |
| `Patterns.Compile` | sync.py:103 | reading a rewritten pattern as `re` does yields at most one symbol per character, and a pattern without `.` reads as its own characters, literally |
| `Patterns.PrefixMatch` | sync.py:103 | the match of `re.match` is anchored at the start: the empty expression matches every name, and a leading literal must be the name's first character |
| `Patterns.Selects` | sync.py:103 | the empty pattern selects every name; a pattern whose first character is neither `.` nor `*` selects only names that start with that character |
| `Patterns.ShouldDownload` | sync.py:100-105 | true iff some pattern in the list selects the name; false for an empty list |
| `Patterns.PrefixMatchIsFullMatchOfPrefix` | sync.py:103 | the match is anchored at the start only: a prefix match is a full match of some prefix of the name |
| `Patterns.PrefixMatchExtends` | sync.py:103 | a name that matches still matches with anything appended |
| `Patterns.LongerNameSelected` | sync.py:100-105 | a longer name that starts with a selected name is also selected |
| `Patterns.DefaultSelectsEveryName` | sync.py:197 | the default list `['.*']` selects exactly the non-empty names that do not start with a line feed |
| `Patterns.NoPatternsSelectNothing` | sync.py:102-105 | an empty pattern list selects nothing |
| `Patterns.ApkSelectsPackage` | sync.py:100-105 | `app-*.apk` selects `app-release.apk` |
| `Patterns.ApkSelectsChecksum` | sync.py:100-105 | `app-*.apk` also selects `app-release.apk.sha256`, because the match is not anchored at the end |
| `Patterns.ApkSkipsReadme` | sync.py:100-105 | `app-*.apk` does not select `readme.txt` |
| `Naming.ArtifactFileName` | sync.py:288-291 | the saved name ends in `.zip`, ignoring case; a name that already does is unchanged; otherwise `.zip` is appended to the name |
| `Naming.ArtifactFileNameIdempotent` | sync.py:288-291 | naming twice gives the same result as naming once |
| `Naming.UpperCaseZipKept` | sync.py:288 | `build.ZIP` is kept; `build` becomes `build.zip` |
| `Ledger.RecordFor` | sync.py:130-163 | the saved record carries the candidate's `type` and lists every candidate file in order, whether or not it was selected or downloaded |
| `Ledger.NeedsUpdate` | sync.py:169-191 | no ledger gives True; a `type` other than the requested one, or no `type` at all, gives True; only a release comparison can raise |
| `Ledger.SavedCandidateIsCurrent` | sync.py:183-191 | the record saved for a candidate whose timestamp parses makes that same candidate not an update |
| `Ledger.ReleaseNewerIff` | sync.py:183-186 | for releases the answer is exactly "candidate instant strictly later than stored instant", so equal instants give False |
| `Ledger.ReleaseAdoptionIsMonotonic` | sync.py:183-186 | after release A, a later B is an update; after B, the earlier A is not |
| `Ledger.RunComparedByIdentity` | sync.py:187-191 | for runs the answer is exactly "stored `run_id` differs from the candidate `id`"; a missing `run_id` counts as different |
| `Ledger.RunAdoptionByIdentity` | sync.py:187-191 | after run A, run B is an update iff the ids differ, whatever the run numbers or times |
| `Ledger.KindSwitchForcesUpdate` | sync.py:179-181 | a record of the other kind always gives True |
| `Ledger.ReleaseRecordErrors` | sync.py:184-185 | a stored release record without `published_at` raises a KeyError; an unparsable stored value raises a parse error |
| `Executor.ReadLedger` | sync.py:173-177 | absent exactly when `.version.json` is not listed; a record exactly when the file holds one, and then that record; anything else fails to read |
| `Executor.SavedName` | sync.py:288-293 | a release asset is saved under its own name; an artifact under a name ending in `.zip`, ignoring case: its own name if it already ends so, else the name with `.zip` appended |
| `Executor.PassFrom` | sync.py:225-238 | the download loop removes no entry, and when it completes it has counted at most one download per remaining candidate file |
| `Executor.Reset` | sync.py:216-223 | after the reset only `.version.json` can remain, and it is untouched |
| `Executor.Decide` | sync.py:210-214 | the sync stops exactly when the ledger exists, reads, and `needs_update` says False; without a ledger it goes on |
| `Executor.Adopt` | sync.py:216-244 | reset, download and save never give "not updated"; if they give "updated", the ledger holds the candidate's record |
| `Executor.Apply` | sync.py:207-244 | only the target directory changes, and it is created if missing; "not updated" happens exactly when the ledger is current, and then nothing is reset; "updated" means the ledger holds the candidate's record |
| `Executor.SyncReleaseStep` | sync.py:193-244 | a missing `repo`, then `target_dir`, then `name` raises that key's KeyError before the query and changes nothing; with the keys present, no answer from the query returns False and changes nothing, an exception from it changes nothing, and a found release runs `Apply` on the target with the configured patterns (default `['.*']`); an update implies the keys were configured, the query found a release, and the ledger now holds that release's record; without an update, no directory other than the target is added |
| `Executor.SyncActionStep` | sync.py:246-311 | the same on the action path, with the run the query returned |
| `Executor.PassOrigins` | sync.py:225-238 | the download loop removes nothing; every entry afterwards is either an earlier one, unchanged, or a file that was selected and fetched with status 200 in this loop |
| `Executor.PassKeepsFetched` | sync.py:225-238 | when the download loop completes, a file that was selected and fetched with status 200 is present under its saved name, whatever followed it |
| `Executor.PassCompleteness` | sync.py:225-238 | when the download loop completes, every selected file fetched with status 200 is present under its saved name |
| `Executor.PassAllRefused` | sync.py:234-238 | when every download gets a failing status, the loop writes nothing and completes |
| `Executor.UpdatedDirectoryContents` | sync.py:216-238 | after an update, every entry other than the ledger is a file fetched in this pass, and every fetched file is there |
| `Executor.UpdatedDespiteFailedDownloads` | sync.py:225-244 | once past the ledger check, the sync reports an update even if every download failed; only the new ledger remains |
| `Executor.LedgerKeptUnlessUpdated` | sync.py:216-241 | unless an update is reported, the ledger file is exactly as before (presence and content), provided no selected file is saved under its name |
| `Executor.ReapplyIsNoOp` | sync.py:210-214 | re-applying an adopted candidate whose timestamp parses reports no update and changes nothing, whatever patterns or download results are used |
| `Executor.StaleReleaseRejected` | sync.py:210-214 | after adopting release B, a release published no later than B is rejected and nothing changes |
| `Executor.SupersedingCandidateProceeds` | sync.py:210-214 | after an adoption, a newer release, a run with another id, or a candidate of the other kind passes the ledger check |
| `Executor.Tree.MakeDirs` | sync.py:208 | the target directory exists afterwards with its old contents; nothing else changes |
| `Executor.Tree.ClearDir` | sync.py:269-276 | the loop over the listing leaves the directory equal to `Reset` of its old listing |
| `Executor.Tree.DownloadFiles` | sync.py:278-305 | the loop leaves the directory as `PassFrom` says, returns the downloaded count, and reports the exception that ended it, if any |
| `Executor.Tree.SaveVersionInfo` | sync.py:130-167 | the loop builds the file list, and `.version.json` then holds `RecordFor(c)`; nothing else changes |
| `Executor.Tree.AdoptCandidate` | sync.py:216-244 | reset, download loop, then the ledger write, in that order, as `Adopt` |
| `Executor.Tree.ApplyCandidate` | sync.py:207-244 | create, check, then adopt, as `Apply` |
| `Executor.Tree.SyncRelease` | sync.py:193-244 | agrees with `SyncReleaseStep` |
| `Executor.Tree.SyncAction` | sync.py:246-311 | agrees with `SyncActionStep` |
| `Batch.SyncProjectStep` | sync.py:313-324 | a missing `type`, or `release`, runs the release sync; `action` runs the action sync; any other type changes nothing and reports no update; an update implies the project has a name |
| `Batch.Collected` | sync.py:336-337 | a project's name is collected iff it reported an update and has a `name` (a missing one raises inside the `try`); nothing but that name is collected |
| `Batch.Sweep` | sync.py:332-341 | at most one name per project is collected |
| `Batch.SweepAdvance` | sync.py:334-337 | one turn of the loop: the batch from project `i` on is that project's collected names followed by the batch after it, on the state it left |
| `Batch.ExitStatus` | sync.py:351-355 | the exit status is 0 or 1, and 1 iff there were updates |
| `Batch.SweepSplit` | sync.py:334-341 | the batch over `ps + qs` is the batch over `ps`, then the batch over `qs` from the state `ps` left, names concatenated in order, whatever `ps`'s projects did |
| `Batch.ExitStatusIffSomeUpdate` | sync.py:332-355 | for any per-project sync, `sync_project` included: the exit status is 1 iff some named project, synced on the state its predecessors left, reported an update |
| `Batch.SweepCollectsReportedNames` | sync.py:332-337 | the collected list is exactly the names of the projects that report an update, each synced on the state its predecessors left, in configuration order |
| `Batch.ReportedNamesMembers` | sync.py:334-337 | a name is in that reference list exactly when some project from the given position on, with that name, reports an update |
| `Batch.UpdatedNamesAreReported` | sync.py:334-337 | a name is collected exactly when a configured project with that name reports an update |
| `Batch.SyncTwiceIsNoOp` | sync.py:204-214 | after a sync that reported an update, and when upstream timestamps parse, syncing the project again with no upstream change reports no update and changes nothing |
| `Batch.FirstReleaseSync` | sync.py:193-244 | a first sync with default settings creates the directory, downloads the one asset, writes the ledger and reports an update; when the publish timestamp parses, a second sync is a no-op |
| `Batch.SyncProject` | sync.py:313-324 | agrees with `SyncProjectStep` |
| `Batch.SyncAll` | sync.py:326-351 | agrees with `Sweep` over `sync_project`, and reports updates iff the collected list is non-empty |

## Left out

- HTTP: `get_latest_release`, `get_latest_action_artifact` and `download_file` (sync.py:29-98, 107-124) are replaced by the `Network` oracle. This leaves out request URLs, headers, the 8 KB streaming and the page size. Within one run the oracle answers the same repository, or the same URL, the same way.
- `load_config` and `get_github_headers` (sync.py:16-27): file and environment access. The configuration is a `seq<Project>` parameter, and a missing `projects` key is not modelled.
- `datetime.fromisoformat` and the `Z` rewrite: a timestamp is a `Stamp`, either an integer instant or unparsable. Comparing a naive with an aware timestamp (a TypeError) is not modelled. `sync_time` and `datetime.now()` are omitted.
- JSON: the ledger is a `LedgerRecord` value. A downloaded file saved as `.version.json` reads as unreadable. Downloaded bytes that happen to form a valid record are not modelled.
- Console output, the MB size formatting and the traceback printing.
- Regular-expression syntax other than literals, `.` and `*` (and thus `re.error` on malformed patterns).
- `Naming.Lower`: lower-cases ASCII letters only. No other character lowers to the characters of `.zip`, so the suffix test agrees with `str.lower()` except on exotic names.
- A configuration key present with value null is read as absent. Where this differs from the code:
  - `type: null`: the code takes it as an unknown type. A project with any other unknown `type` string models that.
  - `asset_patterns: null`: the code raises a TypeError at the first selection, after the reset. The model uses the default patterns.
  - `name: null`: the code prints `None`, syncs normally and then collects `None` as a name, so the exit status can be 1. The model aborts before the query with the missing `name` key and changes nothing.
  - `repo: null`: the code queries the repository `None`. The model aborts with the missing `repo` key.
  - `target_dir: null`: the code queries first and then raises a TypeError in `os.makedirs`. It returns False if the query has no answer. The model aborts before the query. Neither version changes anything.
  - `include_prerelease` and `workflow_file`: null behaves as absent, as in the code.
- Upstream records that lack a key. The oracle's records always carry every key the code reads. So the model never raises a KeyError for a release's `tag_name` or `published_at`: in the code that happens in `save_version_info` (sync.py:135-136, 241), after the download loop, so no ledger is written. The same holds for an asset's or artifact's `name`, size or URL (sync.py:143-145, 159-162, 228, 236, 281, 296, 301).
- File-system detail: nested target directories, symbolic links and special files, permission or disk errors, a target path that is a regular file, asset names containing path separators, and a download interrupted mid-stream.
- Running two instances at once.

/**
  The version ledger: the upstream candidate a sync may adopt, the record kept in
  `.version.json`, the record `save_version_info` writes and the `needs_update`
  decision.
*/
module Ledger {
  import opened Common

  /** A `published_at` value after `fromisoformat(s.replace('Z', '+00:00'))`: an instant, or a parse error. */
  datatype Stamp = Instant(t: int) | Unparsable

  /** One downloadable file: an asset of a release or an artifact of a run. */
  datatype FileInfo = FileInfo(name: string, size: int, url: string)

  /** The latest release, as the upstream query returns it. */
  datatype Release = Release(tagName: string, publishedAt: Stamp, assets: seq<FileInfo>)

  /** The latest completed workflow run with its artifacts. */
  datatype Run = Run(id: int, runNumber: int, createdAt: string, workflowName: string, artifacts: seq<FileInfo>)

  /** The upstream state a sync may adopt. */
  datatype Candidate = ReleaseCandidate(release: Release) | RunCandidate(run: Run) {
    /** The `type` tag of the candidate's kind. */
    function Kind(): string {
      if ReleaseCandidate? then "release" else "action"
    }

    /** The candidate's files, in upstream order. */
    function Files(): seq<FileInfo> {
      match this
      case ReleaseCandidate(r) => r.assets
      case RunCandidate(r) => r.artifacts
    }
  }

  /**
    The contents of `.version.json` as a dictionary: each key may be absent, because
    the file may have been written by another version of the program or by hand.
  */
  datatype LedgerRecord = LedgerRecord(
    kind: Option<string>,
    tagName: Option<string>,
    publishedAt: Option<Stamp>,
    runId: Option<int>,
    runNumber: Option<int>,
    createdAt: Option<string>,
    workflowName: Option<string>,
    assets: Option<seq<FileInfo>>,
    artifacts: Option<seq<FileInfo>>)

  /** The file list a record keeps: its `assets`, else its `artifacts`, else none. */
  function RecordedFiles(rec: LedgerRecord): seq<FileInfo> {
    if rec.assets.Some? then rec.assets.value
    else if rec.artifacts.Some? then rec.artifacts.value
    else []
  }

  /** The record `save_version_info` writes for a candidate (without `sync_time`). */
  function RecordFor(c: Candidate): (rec: LedgerRecord)
    ensures rec.kind == Some(c.Kind())
    ensures RecordedFiles(rec) == c.Files()
  {
    match c
    case ReleaseCandidate(r) =>
      LedgerRecord(Some("release"), Some(r.tagName), Some(r.publishedAt), None, None, None, None, Some(r.assets), None)
    case RunCandidate(r) =>
      LedgerRecord(Some("action"), None, None, Some(r.id), Some(r.runNumber), Some(r.createdAt), Some(r.workflowName), None, Some(r.artifacts))
  }

  /** `needs_update`: does the candidate supersede the stored record? */
  function NeedsUpdate(stored: Option<LedgerRecord>, c: Candidate): (r: Result<bool>)
    ensures stored.None? ==> r == Ok(true)
    ensures stored.Some? && stored.value.kind != Some(c.Kind()) ==> r == Ok(true)
    ensures r.Err? ==> c.ReleaseCandidate? && stored.Some?
  {
    match stored
    case None => Ok(true)
    case Some(rec) =>
      if rec.kind != Some(c.Kind()) then Ok(true)
      else match c
        case ReleaseCandidate(release) =>
          if rec.publishedAt.None? then Err(LedgerKeyMissing("published_at"))
          else if rec.publishedAt.value.Unparsable? || release.publishedAt.Unparsable? then Err(TimestampUnparsable)
          else Ok(release.publishedAt.t > rec.publishedAt.value.t)
        case RunCandidate(run) =>
          Ok(rec.runId != Some(run.id))
  }

  /** A candidate whose timestamps, if it has any, parse. */
  predicate Dated(c: Candidate) {
    c.ReleaseCandidate? ==> c.release.publishedAt.Instant?
  }

  /** Idempotence: the record saved for a candidate makes that candidate up to date. */
  lemma SavedCandidateIsCurrent(c: Candidate)
    requires Dated(c)
    ensures NeedsUpdate(Some(RecordFor(c)), c) == Ok(false)
  {
  }

  /** Releases are compared by publish instant alone, strictly: equal instants are not an update. */
  lemma ReleaseNewerIff(rec: LedgerRecord, release: Release, stored: int, latest: int)
    requires rec.kind == Some("release") && rec.publishedAt == Some(Instant(stored))
    requires release.publishedAt == Instant(latest)
    ensures NeedsUpdate(Some(rec), ReleaseCandidate(release)) == Ok(latest > stored)
  {
  }

  /** Monotonic adoption: after A, a later B is adopted; after B, the earlier A is stale. */
  lemma ReleaseAdoptionIsMonotonic(a: Release, b: Release)
    requires a.publishedAt.Instant? && b.publishedAt.Instant?
    requires a.publishedAt.t < b.publishedAt.t
    ensures NeedsUpdate(Some(RecordFor(ReleaseCandidate(a))), ReleaseCandidate(b)) == Ok(true)
    ensures NeedsUpdate(Some(RecordFor(ReleaseCandidate(b))), ReleaseCandidate(a)) == Ok(false)
  {
  }

  /** Runs are compared by identifier only: any different id is an update, whatever the run numbers. */
  lemma RunComparedByIdentity(rec: LedgerRecord, run: Run)
    requires rec.kind == Some("action")
    ensures NeedsUpdate(Some(rec), RunCandidate(run)) == Ok(rec.runId != Some(run.id))
  {
  }

  /** After adopting run A, run B is an update exactly when its id differs. */
  lemma RunAdoptionByIdentity(a: Run, b: Run)
    ensures NeedsUpdate(Some(RecordFor(RunCandidate(a))), RunCandidate(b)) == Ok(a.id != b.id)
  {
  }

  /** Switching a project's kind forces a resync on the next cycle. */
  lemma KindSwitchForcesUpdate(previous: Candidate, c: Candidate)
    requires previous.Kind() != c.Kind()
    ensures NeedsUpdate(Some(RecordFor(previous)), c) == Ok(true)
  {
  }

  /** A stored release record without `published_at`, or with a value that does not parse, raises. */
  lemma ReleaseRecordErrors(rec: LedgerRecord, release: Release)
    requires rec.kind == Some("release")
    ensures rec.publishedAt.None? ==> NeedsUpdate(Some(rec), ReleaseCandidate(release)) == Err(LedgerKeyMissing("published_at"))
    ensures rec.publishedAt == Some(Unparsable) ==> NeedsUpdate(Some(rec), ReleaseCandidate(release)) == Err(TimestampUnparsable)
  {
  }
}

/** Option, Result and the failures a sync can end in. */
module Common {

  /** A value that may be absent: a missing dictionary key, an upstream query with no answer. */
  datatype Option<T> = None | Some(value: T) {
    /** The value, or `default` when absent (Python's `dict.get(key, default)`). */
    function GetOr(default: T): T {
      match this
      case Some(v) => v
      case None => default
    }
  }

  /** A computation that either yields a value or raises one of the failures below. */
  datatype Result<T> = Ok(value: T) | Err(failure: Failure)

  /** The exceptions that can escape one project's sync and are caught by the batch driver. */
  datatype Failure =
    | ConfigKeyMissing(key: string)    // project_config['repo'], ['target_dir'] or ['name'] absent
    | QueryRaised                      // the upstream query itself raised (connection error, bad JSON)
    | LedgerUnreadable                 // .version.json is a directory or does not hold a record
    | LedgerKeyMissing(key: string)    // current_info['published_at'] absent
    | TimestampUnparsable              // datetime.fromisoformat rejected a published_at value
    | DownloadRaised(url: string)      // requests.get raised while fetching one file
    | WriteRaised(path: string)        // open(save_path, 'wb') on a path that is a directory
}

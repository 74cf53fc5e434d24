/**
 * What both versions share about saving the store: the database file as the
 * program finds it, and the debounce that keeps saves at least
 * `persist_period_limit` apart. Time is a whole number of ticks.
 */
module Persistence {
  import opened Results
  import opened JsonValues

  /** The database file path and what is found there. */
  datatype DbFile =
    | NoPath                       // no path was given
    | Missing                      // the path does not exist yet
    | NotAFile                     // the path exists but is not a regular file
    | Holds(content: Option<Json>) // a file; `None` when its text is not JSON

  /** What one call of `_persist` did. */
  datatype SaveOutcome =
    | Saved                            // the file was (re)written
    | Skipped(message: Option<string>) // no path: prints its message the first time only
    | Raised                           // opening the path for writing raised

  /** A file's content is what `json.load` gives: objects list each key once. */
  ghost predicate FileWellFormed(file: DbFile) {
    file.Holds? && file.content.Some? ==> WellFormedJson(file.content.value)
  }

  /**
   * How long the persistence loop waits after waking at `now`: until
   * `persist_period_limit` has passed since the last save, and not longer.
   */
  function DebounceDelay(now: int, lastSave: int, limit: int): (d: int)
    ensures d >= 0
    ensures now + d >= lastSave + limit
    ensures d == 0 || now + d == lastSave + limit
  {
    if now - lastSave < limit then limit + lastSave - now else 0
  }
}

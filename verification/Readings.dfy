/** One pass over a kernel table. */
module Readings {
  /** The rows that were seen before the pass ended, and whether it ended without an error. */
  datatype Reading<T> = Reading(rows: seq<T>, ok: bool)
}

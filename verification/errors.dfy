/**
 * The exceptions `process_chat` can raise once its input lines are in
 * memory. None of them is caught, so each one ends the whole run.
 */
module Errors {

  datatype Error =
      /** `message.split(' - ', 1)` yields one piece and the two-name unpacking raises `ValueError`. */
    | MalformedMessage(message: string)
      /** A `re.search` on the timestamp returns `None` and `.group` raises `AttributeError`. */
    | MissingTimestampField(timestamp: string)
      /** `datetime.datetime(...)` rejects the fields with `ValueError`. */
    | InvalidDateTime(timestamp: string)
      /** The free-text date parser finds no date and time in the timestamp. */
    | UnparseableTimestamp(timestamp: string)
}

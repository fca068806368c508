/**
 * The browser's persisted read watermarks: the `lastReadMessages` item of
 * local storage, a JSON object from contact number to the message count
 * seen when that conversation was last read.
 */
module ReadState {

  /** The stored item, after an attempt to parse it. `NotStored` covers both
      a missing item and an empty string (both are falsy, so neither is
      parsed). The JSON encoding itself is not modelled. */
  datatype Stored =
    | NotStored
    | Unparsable
    | Parsed(marks: map<string, int>)

  /** The local-storage slot holding `lastReadMessages`; shared by the
      conversation list and the thread view. */
  class LocalStorage {
    var item: Stored

    constructor (initial: Stored)
      ensures item == initial
    {
      item := initial;
    }
  }

  /** `marks[key] || 0`: a missing watermark reads as 0. */
  function Watermark(marks: map<string, int>, key: string): int {
    if key in marks then marks[key] else 0
  }
}

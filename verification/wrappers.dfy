/** The optional value used where the firmware has a "nothing" outcome: a
    message type byte that selects no case, an estimate with nothing to
    divide by, a step that reports no durations. */
module Wrappers {

  datatype Option<+T> = None | Some(value: T)
}

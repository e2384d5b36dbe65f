/** What the parts of the authenticator share: its status codes, and how writes to its store may fail. */
module Ctap {
  import opened Wrappers

  datatype StatusCode =
    | MissingParameter
    | PinAuthInvalid
    | PinAuthBlocked
    | PinBlocked
    | PinInvalid
    | PinRequired
    | PinPolicyViolation
    | NotAllowed
    | NoCredentials
    | UnsupportedExtension
    | KeyStoreFull
    | VendorInternalError
    | VendorHardwareFailure
    | OtherError

  type Status = Result<(), StatusCode>

  /** What happens to a write of the persistent store: one that fails may still have been applied. */
  datatype Fault = Fine | Failing(error: StatusCode, applied: bool)

  predicate Applied(fault: Fault) {
    fault.Fine? || fault.applied
  }

  function Outcome(fault: Fault): Status {
    if fault.Fine? then Ok(()) else Err(fault.error)
  }

  /** What happens to the next write, given what happens to the writes to come; nothing fails after them. */
  function NextFault(faults: seq<Fault>): Fault {
    if faults == [] then Fine else faults[0]
  }

  function LaterFaults(faults: seq<Fault>): seq<Fault> {
    if faults == [] then [] else faults[1..]
  }
}

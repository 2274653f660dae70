/**
 The exceptions the client and the coordinator can see. `PairingRequired` is a kind of
 `Auth`; `Other` stands for every exception outside the integration's own hierarchy.
 */
module Errors {

  datatype Error = Connection | Timeout | Auth | PairingRequired | Protocol | Other

  /** `except NinebotAuthError`. */
  predicate IsAuth(e: Error) {
    e == Auth || e == PairingRequired
  }

  /** `except NinebotError`. */
  predicate IsNinebot(e: Error) {
    e != Other
  }

  /** What a request or a register read can raise. */
  predicate IsLinkError(e: Error) {
    e == Timeout || e == Connection || e == Protocol || e == Other
  }
}

/**
The stripes that keys share once a registry is full
(crates/teodb-api/src/admission.rs). The hash is a parameter.
*/
module OverflowStripes {
  const OVERFLOW_STRIPES: nat := 64

  type Hash = string -> nat

  function Stripe(hash: Hash, key: string): (stripe: nat)
    ensures stripe < OVERFLOW_STRIPES
  {
    hash(key) % OVERFLOW_STRIPES
  }
}

/** A way to keep a definition closed: a predicate of the form `forall k :: Open(k) ==> P` says
    `P`, but the verifier spells it out only in proofs that mention `Open(_)`. */
module Guard {

  predicate Open(k: nat) { true }
}

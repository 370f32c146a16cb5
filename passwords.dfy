/** The password hashing capability (Werkzeug's `generate_password_hash` /
    `check_password_hash`), modelled as an ideal salted digest. */
module Passwords {

  /** A stored credential. The model keeps the password the digest was made
      from so that verification can be stated; nothing but `Verify` looks
      inside it, and the salt stands for the hasher's randomness. */
  datatype Digest = Digest(salt: nat, preimage: string)

  /** `generate_password_hash(plain)` with the random salt passed in. */
  function Hash(plain: string, salt: nat): Digest {
    Digest(salt, plain)
  }

  /** `check_password_hash(digest, plain)`. */
  predicate Verify(digest: Digest, plain: string) {
    digest.preimage == plain
  }

  /** An ideal hash accepts exactly the password it was made from, whatever
      the salt. */
  lemma VerifyHash(p: string, q: string, salt: nat)
    ensures Verify(Hash(p, salt), q) <==> p == q
  {
  }
}

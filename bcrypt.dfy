/**
 * The password hasher, kept abstract: a salted one-way hash and a compare.
 * The digest is idealised as the pair of the salt and the secret it was made
 * from, so `Compare` accepts exactly the password that was hashed.
 */
module Bcrypt {

  /** Cost factor the registration flow asks the salt generator for. */
  const SaltRounds: nat := 10

  /** A salt: its cost factor and the random part chosen by the generator. */
  datatype Salt = Salt(rounds: nat, nonce: nat)

  datatype Digest = Digest(salt: Salt, secret: string)

  /** Salt generation; the random part is supplied by the caller. */
  function GenSalt(rounds: nat, nonce: nat): Salt
  {
    Salt(rounds, nonce)
  }

  function Hash(password: string, salt: Salt): (d: Digest)
    ensures d.salt == salt
    ensures Compare(password, d)
  {
    Digest(salt, password)
  }

  predicate Compare(password: string, hash: Digest)
  {
    hash.secret == password
  }

  /** Different passwords never match each other's digest (idealised hash). */
  lemma CompareRejectsOtherPassword(password: string, other: string, salt: Salt)
    requires other != password
    ensures !Compare(other, Hash(password, salt))
  {
  }
}

/**
 * bcrypt as the handlers use it: `hashpw(password, gensalt())` and
 * `checkpw(password, hashed)`. The algorithm is not modelled; a hasher is a pair of
 * functions, and the salt that `gensalt` draws at random is a parameter.
 */
module Bcrypt {

  datatype Hasher = Hasher(hash: (string, string) -> string, check: (string, string) -> bool)

  /** A password always checks against any hash made from it, whatever the salt. */
  ghost predicate Sound(h: Hasher)
  {
    forall password, salt :: h.check(password, h.hash(password, salt))
  }
}

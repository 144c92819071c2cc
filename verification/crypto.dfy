/** bcrypt, idealised. A stored secret is either a plaintext that was just assigned
    (and that the save hook has yet to hash) or a hash that remembers the plaintext it
    hides and the salt it was made with. Comparison succeeds exactly for the hidden
    plaintext, whatever the salt. */
module Crypto {

  datatype Secret = Plain(text: string) | Hashed(of: string, salt: nat)

  /** `bcrypt.hash(text, salt)` */
  function Hash(text: string, salt: nat): (h: Secret)
    ensures h.Hashed?
  {
    Hashed(text, salt)
  }

  /** `bcrypt.compare(candidate, stored)`: a stored value that is not a hash matches nothing. */
  predicate Compare(candidate: string, stored: Secret)
  {
    stored.Hashed? && stored.of == candidate
  }

  /** The hook's step for one field: a freshly assigned plaintext is hashed, a hash is kept. */
  function HashIfAssigned(s: Secret, salt: nat): (r: Secret)
    ensures r.Hashed?
    ensures forall p :: Compare(p, r) <==> (s.Plain? && p == s.text) || Compare(p, s)
  {
    match s
    case Plain(t) => Hash(t, salt)
    case Hashed(_, _) => s
  }

  /** A hash matches its own plaintext and nothing else, for every salt. */
  lemma CompareHash(candidate: string, text: string, salt: nat)
    ensures Compare(candidate, Hash(text, salt)) <==> candidate == text
  {
  }
}

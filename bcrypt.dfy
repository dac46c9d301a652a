/** golang.org/x/crypto/bcrypt as the handlers use it: GenerateFromPassword
    with the default cost and CompareHashAndPassword.

    A hash is modelled as the random salt it was made with together with the
    password it was computed from (its `preimage`); only Verify looks at the password, so the
    model behaves as an ideal salted one-way hash: a guess verifies exactly
    when it is the password that was hashed. The stored value is of type
    PasswordHash, never of type string, so a plaintext password cannot be
    stored where a hash is expected. */
module Bcrypt {

  /** bcrypt.DefaultCost. */
  const DefaultCost := 10

  datatype PasswordHash = PasswordHash(cost: nat, salt: nat, preimage: string)

  /** bcrypt.GenerateFromPassword(password, DefaultCost) with the salt the
      entropy source produced. */
  function Hash(salt: nat, password: string): (h: PasswordHash)
    ensures h.cost == DefaultCost && h.salt == salt
  {
    PasswordHash(DefaultCost, salt, password)
  }

  /** bcrypt.CompareHashAndPassword(h, guess) == nil. */
  predicate Verify(h: PasswordHash, guess: string) {
    h.preimage == guess
  }

  /** A hash verifies the password it was made from and no other, whatever the
      salt. */
  lemma VerifyHash(salt: nat, password: string, guess: string)
    ensures Verify(Hash(salt, password), guess) <==> guess == password
  {
  }
}

/**
 * The identity a token carries. `signToken` (src/lib/jwt.ts) signs
 * `{ id, username }` of a user row, and `jwt.verify` gives those two fields
 * back for a token that passes its signature and expiry checks. Signing and
 * verification themselves are cryptography and are taken as parameters
 * wherever they are used: a signing function `Identity -> string` and a
 * verifier `string -> Option<Identity>` (None when verification throws).
 */
module Auth {
  datatype Identity = Identity(id: int, username: string)
}

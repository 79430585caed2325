/**
 * A stand-in for the signed token that protects stored content. The real
 * pair signs and verifies a JSON Web Token (RFC 7519) with HMAC SHA-256
 * (section 3.2 of RFC 7518) whose claim `content` holds whatever value
 * `createMessage` was given; `decryptMessage` hands that value back.
 *
 * Here a token is either one this server signed over a payload, or any other
 * string, which does not verify. That keeps the facts the rest of the model
 * uses: a signed token decodes to exactly what was signed, it is a non-empty
 * string, and a token it did not sign is rejected.
 */
module Codec {
  import opened Wrappers
  import MessageOptions

  /**
   * The value of the `content` claim. The server's parameter is typed as a
   * string, but the form passes its whole options object, and that object is
   * what gets signed and comes back.
   */
  datatype Payload =
    | TextPayload(text: string)
    | RequestPayload(request: MessageOptions.CreateRequest)

  datatype Token = Signed(payload: Payload) | Foreign(raw: string)

  /** A token as the string stored in the record is empty; a compact signed token never is. */
  predicate IsEmptyToken(t: Token) {
    t.Foreign? && t.raw == ""
  }

  /** `decryptMessage`: the signed payload, or a rejection when the token does not verify. */
  function Decrypt(token: Token): (r: Option<Payload>)
    ensures r.Some? <==> token.Signed?
    ensures r.Some? ==> token == Signed(r.value)
  {
    match token
    case Signed(payload) => Some(payload)
    case Foreign(_) => None
  }

  /** `encryptMessage`: a signed token over the payload. */
  function Encrypt(payload: Payload): (token: Token)
    ensures Decrypt(token) == Some(payload)
    ensures !IsEmptyToken(token)
  {
    Signed(payload)
  }

  /** Only tokens produced by `Encrypt` decode, and each decodes to its own payload. */
  lemma DecryptOnlyEncrypted(token: Token, payload: Payload)
    ensures Decrypt(token) == Some(payload) <==> token == Encrypt(payload)
  {
  }
}

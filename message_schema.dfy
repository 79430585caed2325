/**
 * The persisted one-time message record and the constraints its schema
 * declares: `id`, `content` and `expiresAt` are required, `id` is unique, and
 * `isRead` defaults to false.
 */
module MessageSchema {
  import opened Wrappers
  import opened Codec

  /** Milliseconds since the epoch, the resolution of a JavaScript `Date`. */
  type Timestamp = int

  /** `content` holds the signed token, stored as a string. */
  datatype Message = Message(id: string, content: Token, expiresAt: Timestamp, isRead: bool)

  /** The fields handed to `Message.create`; an absent field is `None`. */
  datatype MessageInput = MessageInput(
    id: Option<string>,
    content: Option<Token>,
    expiresAt: Option<Timestamp>,
    isRead: Option<bool>)

  /** The schema paths a required-validator can reject. */
  datatype Path = IdPath | ContentPath | ExpiresAtPath

  /**
   * A required string path is satisfied only by a non-empty string (the
   * required-validator of a String path rejects `''` as well as a missing value).
   */
  predicate HasRequiredString(v: Option<string>) {
    v.Some? && v.value != ""
  }

  /** The same test for the token stored in the `content` path. */
  predicate HasRequiredToken(v: Option<Token>) {
    v.Some? && !IsEmptyToken(v.value)
  }

  /** Every path whose required-validator fails; validation reports all of them at once. */
  function MissingPaths(input: MessageInput): (paths: set<Path>)
    ensures IdPath in paths <==> !HasRequiredString(input.id)
    ensures ContentPath in paths <==> !HasRequiredToken(input.content)
    ensures ExpiresAtPath in paths <==> input.expiresAt.None?
  {
    (if HasRequiredString(input.id) then {} else {IdPath})
    + (if HasRequiredToken(input.content) then {} else {ContentPath})
    + (if input.expiresAt.Some? then {} else {ExpiresAtPath})
  }

  /**
   * Building a document from its input: validation fails with the set of
   * offending paths, otherwise the document keeps the given fields and
   * `isRead` takes its default when none is given.
   */
  function Cast(input: MessageInput): (r: Result<Message, set<Path>>)
    ensures r.Success? <==> HasRequiredString(input.id) && HasRequiredToken(input.content) && input.expiresAt.Some?
    ensures r.Failure? ==> r.error == MissingPaths(input) && r.error != {}
    ensures r.Success? ==> Some(r.value.id) == input.id && Some(r.value.content) == input.content
    ensures r.Success? ==> Some(r.value.expiresAt) == input.expiresAt
    ensures r.Success? ==> r.value.isRead == (input.isRead.Some? && input.isRead.value)
  {
    var missing := MissingPaths(input);
    if missing != {} then Failure(missing)
    else
      Success(Message(input.id.value, input.content.value, input.expiresAt.value, input.isRead.GetOr(false)))
  }

  /** A document that passed validation. */
  predicate ValidRecord(m: Message) {
    m.id != "" && !IsEmptyToken(m.content)
  }

  /**
   * The collection, keyed by `id`. Keying by the unique field is the unique
   * index: each record sits under its own id and every record passed validation.
   */
  predicate WellFormed(docs: map<string, Message>) {
    forall k :: k in docs ==> docs[k].id == k && ValidRecord(docs[k])
  }

  /** No two records of a well-formed collection share an id. */
  lemma IdsUnique(docs: map<string, Message>, k1: string, k2: string)
    requires WellFormed(docs) && k1 in docs && k2 in docs && k1 != k2
    ensures docs[k1].id != docs[k2].id
  {
  }

  /** Whatever validation accepts is a valid record; its `isRead` is false unless the input said otherwise. */
  lemma CastValid(input: MessageInput)
    requires Cast(input).Success?
    ensures ValidRecord(Cast(input).value)
    ensures input.isRead.None? ==> !Cast(input).value.isRead
  {
  }
}

/**
 * The server actions behind the one-time message: `createMessage` stores a
 * token signed over its `content` argument under a fresh id with an expiry and
 * `isRead = false`; `readMessage` looks the record up by id and
 * `isRead == false`, decodes it, deletes it and hands back the signed value,
 * or `null` when nothing matched.
 *
 * The pure functions CreateStep and ReadStep say what one call does to the
 * collection; the class MessageStore performs the calls in place and is
 * proved against them. The id generator and the clock are parameters.
 */
module Actions {
  import opened Wrappers
  import opened MessageSchema
  import opened Codec

  const MsPerHour := 3_600_000
  /** The expiry, in hours, when the caller gives none. */
  const DefaultExpireHours := 24

  /** Why `Message.create` rejects: a required path failed, or the unique index already holds the id. */
  datatype CreateError = ValidationFailed(paths: set<Path>) | DuplicateKey(id: string)

  /**
   * What `readMessage` settles to: the decoded value, `null` when no unread
   * record has the id, or a rejection because the stored token did not verify.
   */
  datatype ReadResult = Plaintext(payload: Payload) | NotFound | DecodeRejected

  /** `expiresAt` is the creation time moved forward by the given number of whole hours. */
  function ExpiryFrom(now: Timestamp, hours: int): (expiry: Timestamp)
    ensures (expiry - now) % MsPerHour == 0 && (expiry - now) / MsPerHour == hours
  {
    now + hours * MsPerHour
  }

  /** The document `createMessage` asks the model to create. */
  function NewMessageInput(id: string, content: Payload, expireAt: int, now: Timestamp): MessageInput {
    MessageInput(Some(id), Some(Encrypt(content)), Some(ExpiryFrom(now, expireAt)), Some(false))
  }

  /** The record a successful create stores. */
  function NewRecord(id: string, content: Payload, expireAt: int, now: Timestamp): Message {
    Message(id, Encrypt(content), ExpiryFrom(now, expireAt), false)
  }

  /** One `createMessage(content, expireAt)` call with generated id `id` at time `now`: its result and the new collection. */
  function CreateStep(docs: map<string, Message>, id: string, content: Payload, expireAt: int, now: Timestamp)
    : (out: (Result<string, CreateError>, map<string, Message>))
    ensures WellFormed(docs) ==> WellFormed(out.1)
    ensures out.0.Success? <==> id != "" && id !in docs
    ensures out.0.Success? ==> out.0.value == id && out.1 == docs[id := NewRecord(id, content, expireAt, now)]
    ensures out.0.Failure? ==> out.1 == docs
    ensures id == "" ==> out.0 == Failure(ValidationFailed({IdPath}))
    ensures id != "" && id in docs ==> out.0 == Failure(DuplicateKey(id))
  {
    var input := NewMessageInput(id, content, expireAt, now);
    assert MissingPaths(input) == if id == "" then {IdPath} else {};
    match Cast(input)
    case Failure(paths) => (Failure(ValidationFailed(paths)), docs)
    case Success(doc) =>
      if doc.id in docs then (Failure(DuplicateKey(doc.id)), docs)
      else (Success(id), docs[doc.id := doc])
  }

  /** `findOne({ id, isRead: false })` matches the record stored under `id` when it is unread. */
  predicate Unread(docs: map<string, Message>, id: string) {
    id in docs && !docs[id].isRead
  }

  /** One `readMessage(id)` call: its result and the new collection. */
  function ReadStep(docs: map<string, Message>, id: string): (out: (ReadResult, map<string, Message>))
    ensures out.0.NotFound? <==> !Unread(docs, id)
    ensures out.0.NotFound? || out.0.DecodeRejected? ==> out.1 == docs
    ensures out.0.Plaintext? ==> out.1 == docs - {id} && Decrypt(docs[id].content) == Some(out.0.payload)
    ensures out.0.DecodeRejected? ==> Decrypt(docs[id].content).None?
    ensures WellFormed(docs) ==> WellFormed(out.1)
  {
    if !Unread(docs, id) then (NotFound, docs)
    else
      match Decrypt(docs[id].content)
      case None => (DecodeRejected, docs)
      case Some(plaintext) => (Plaintext(plaintext), docs - {id})
  }

  /** A successful create adds exactly one record, under the returned id, and touches no other. */
  lemma CreateInsertsOne(docs: map<string, Message>, id: string, content: Payload, expireAt: int, now: Timestamp)
    requires CreateStep(docs, id, content, expireAt, now).0.Success?
    ensures var after := CreateStep(docs, id, content, expireAt, now).1;
      && id !in docs && after.Keys == docs.Keys + {id} && |after| == |docs| + 1
      && (forall k :: k in docs ==> after[k] == docs[k])
  {
    var after := CreateStep(docs, id, content, expireAt, now).1;
    assert after.Keys == docs.Keys + {id};
  }

  /**
   * The new record holds a token signed over the content, never the content
   * itself, is unread, and expires `expireAt` hours after creation.
   */
  lemma CreatedRecordFields(docs: map<string, Message>, id: string, content: Payload, expireAt: int, now: Timestamp)
    requires CreateStep(docs, id, content, expireAt, now).0.Success?
    ensures var m := CreateStep(docs, id, content, expireAt, now).1[id];
      && m.content == Encrypt(content) && Decrypt(m.content) == Some(content)
      && !m.isRead && m.id == id && m.expiresAt == now + expireAt * MsPerHour
  {
  }

  /** A successful read removes its record and only that record. */
  lemma ReadRemovesOnlyTarget(docs: map<string, Message>, id: string)
    requires ReadStep(docs, id).0.Plaintext?
    ensures var after := ReadStep(docs, id).1;
      && id in docs && id !in after && after.Keys == docs.Keys - {id} && |after| == |docs| - 1
      && (forall k :: k in after ==> after[k] == docs[k])
  {
    var after := ReadStep(docs, id).1;
    assert after.Keys == docs.Keys - {id};
  }

  /** One-time: once a read has returned the plaintext, reading the same id again gives `null`. */
  lemma ReadIsOneShot(docs: map<string, Message>, id: string)
    requires ReadStep(docs, id).0.Plaintext?
    ensures ReadStep(ReadStep(docs, id).1, id) == (NotFound, ReadStep(docs, id).1)
  {
  }

  /**
   * Round trip: reading the id a create returned yields the original content,
   * and leaves the collection as it was before the create.
   */
  lemma CreateThenRead(docs: map<string, Message>, id: string, content: Payload, expireAt: int, now: Timestamp)
    requires CreateStep(docs, id, content, expireAt, now).0.Success?
    ensures ReadStep(CreateStep(docs, id, content, expireAt, now).1, id) == (Plaintext(content), docs)
  {
    var after := CreateStep(docs, id, content, expireAt, now).1;
    assert after - {id} == docs;
  }

  /** The two collections differ at most in the `expiresAt` of their records. */
  predicate SameButExpiry(d1: map<string, Message>, d2: map<string, Message>) {
    && d1.Keys == d2.Keys
    && forall k :: k in d1 ==>
      d1[k].id == d2[k].id && d1[k].content == d2[k].content && d1[k].isRead == d2[k].isRead
  }

  /** The read filter consults only `id` and `isRead`: expiry times never change what a read returns. */
  lemma ReadIgnoresExpiry(d1: map<string, Message>, d2: map<string, Message>, id: string)
    requires SameButExpiry(d1, d2)
    ensures ReadStep(d1, id).0 == ReadStep(d2, id).0
    ensures SameButExpiry(ReadStep(d1, id).1, ReadStep(d2, id).1)
  {
  }

  /** The results of `n` successive reads of one id. */
  function ReadRepeatedly(docs: map<string, Message>, id: string, n: nat): seq<ReadResult>
    decreases n
  {
    if n == 0 then [] else
      var step := ReadStep(docs, id);
      [step.0] + ReadRepeatedly(step.1, id, n - 1)
  }

  /** Reading a missing id any number of times gives `null` every time. */
  lemma {:induction false} ReadMissingRepeatedly(docs: map<string, Message>, id: string, n: nat)
    requires !Unread(docs, id)
    ensures ReadRepeatedly(docs, id, n) == seq(n, _ => NotFound)
  {
    if n > 0 {
      ReadMissingRepeatedly(docs, id, n - 1);
    }
  }

  /**
   * There is no view limit: of `n` reads after a create, exactly the first
   * returns the content and every later one returns `null`.
   */
  lemma CreateThenReadRepeatedly(docs: map<string, Message>, id: string, content: Payload, expireAt: int, now: Timestamp, n: nat)
    requires CreateStep(docs, id, content, expireAt, now).0.Success?
    requires n >= 1
    ensures ReadRepeatedly(CreateStep(docs, id, content, expireAt, now).1, id, n)
      == [Plaintext(content)] + seq(n - 1, _ => NotFound)
  {
    CreateThenRead(docs, id, content, expireAt, now);
    ReadMissingRepeatedly(docs, id, n - 1);
  }

  /** The persistent collection, updated in place by the two actions. */
  class MessageStore {
    var docs: map<string, Message>

    ghost predicate Valid()
      reads this
    {
      WellFormed(docs)
    }

    constructor ()
      ensures Valid() && docs == map[]
    {
      docs := map[];
    }

    /**
     * `createMessage(content, expireAt = 24)`. `id` is the generated id and
     * `now` the clock reading taken when the call runs.
     */
    method CreateMessage(content: Payload, id: string, now: Timestamp, expireAt: int := DefaultExpireHours)
      returns (r: Result<string, CreateError>)
      requires Valid()
      modifies this
      ensures Valid()
      ensures (r, docs) == CreateStep(old(docs), id, content, expireAt, now)
    {
      var encrypted := Encrypt(content);
      var expiresAt := now + expireAt * MsPerHour;
      var cast := Cast(MessageInput(Some(id), Some(encrypted), Some(expiresAt), Some(false)));
      if cast.Failure? {
        r := Failure(ValidationFailed(cast.error));
        return;
      }
      var doc := cast.value;
      if doc.id in docs {
        r := Failure(DuplicateKey(doc.id));
        return;
      }
      docs := docs[doc.id := doc];
      r := Success(id);
    }

    /** `readMessage(id)`. */
    method ReadMessage(id: string) returns (r: ReadResult)
      requires Valid()
      modifies this
      ensures Valid()
      ensures (r, docs) == ReadStep(old(docs), id)
    {
      if !(id in docs && !docs[id].isRead) {
        return NotFound;
      }
      var decrypted := Decrypt(docs[id].content);
      if decrypted.None? {
        return DecodeRejected;
      }
      docs := docs - {id};
      r := Plaintext(decrypted.value);
    }
  }

  /** A client of the store: create, read once, read again. */
  method CreateReadTwice(content: Payload, id: string, now: Timestamp) returns (first: ReadResult, second: ReadResult)
    requires id != ""
    ensures first == Plaintext(content) && second == NotFound
  {
    var store := new MessageStore();
    var created := store.CreateMessage(content, id, now);
    first := store.ReadMessage(id);
    second := store.ReadMessage(id);
  }
}

/**
 * The sender's form: the ordered validation chain, the submit handler that
 * calls `createMessage` and records the id or a submit error, the reset
 * handler, and the share link shown once a message is stored.
 *
 * The numeric inputs hold `Number(input.value)` of a number field, which may
 * be fractional, so they are modelled as reals.
 */
module Page {
  import opened Wrappers
  import opened Strings
  import opened MessageKind
  import opened MessageOptions

  /** The form field an error is reported against. */
  datatype Field = ContentField | ExpiryField | ViewLimitField | SubmitField

  datatype ErrorState = ErrorState(message: string, field: Field)

  const EmptyContentMessage := "Message cannot be empty"
  const ExpiryRangeMessage := "Expiry time must be between 1 and 168 hours"
  const ViewLimitRangeMessage := "View limit must be between 1 and 10 views"
  const CreateFailedMessage := "Failed to create message"
  const SubmitFallbackMessage := "Something went wrong. Please try again."

  const MinExpiryHours: real := 1.0
  const MaxExpiryHours: real := 168.0
  const MinViewLimit: real := 1.0
  const MaxViewLimit: real := 10.0
  const DefaultExpiryHours: real := 24.0
  const DefaultViewLimit: real := 1.0

  /** Where the share link points when no public origin is configured. */
  const DefaultOrigin := "http://localhost:3000"

  /** The values the validator and the submit handler read. */
  datatype FormInput = FormInput(
    simpleContent: string,
    compoundContent: string,
    expiryHours: real,
    viewLimit: real,
    kind: Kind)

  /** The text of the tab the sender has selected. */
  function SelectedContent(f: FormInput): string {
    if f.kind == Simple then f.simpleContent else f.compoundContent
  }

  predicate ContentPresent(f: FormInput) {
    Trim(SelectedContent(f)) != ""
  }

  predicate ExpiryInRange(f: FormInput) {
    MinExpiryHours <= f.expiryHours <= MaxExpiryHours
  }

  predicate ViewLimitInRange(f: FormInput) {
    MinViewLimit <= f.viewLimit <= MaxViewLimit
  }

  /** The message each failing check reports. */
  function CheckMessage(field: Field): string {
    match field
    case ContentField => EmptyContentMessage
    case ExpiryField => ExpiryRangeMessage
    case ViewLimitField => ViewLimitRangeMessage
    case SubmitField => SubmitFallbackMessage
  }

  /** Every check the input fails, in the order the form makes them. */
  function FailedChecks(f: FormInput): seq<Field> {
    (if ContentPresent(f) then [] else [ContentField])
    + (if ExpiryInRange(f) then [] else [ExpiryField])
    + (if ViewLimitInRange(f) then [] else [ViewLimitField])
  }

  /**
   * `validateForm`: `None` when every check passes, otherwise the error of
   * the first check that fails, named by its field.
   */
  function ValidateForm(f: FormInput): (r: Option<ErrorState>)
    ensures r.None? <==> FailedChecks(f) == []
    ensures r.Some? ==> r.value.field == FailedChecks(f)[0] && r.value.message == CheckMessage(r.value.field)
    ensures r.Some? ==> r.value.field != SubmitField
  {
    if Trim(SelectedContent(f)) == "" then
      Some(ErrorState(EmptyContentMessage, ContentField))
    else if f.expiryHours < 1.0 || f.expiryHours > 168.0 then
      Some(ErrorState(ExpiryRangeMessage, ExpiryField))
    else if f.viewLimit < 1.0 || f.viewLimit > 10.0 then
      Some(ErrorState(ViewLimitRangeMessage, ViewLimitField))
    else
      None
  }

  /** The form is accepted exactly when all three checks pass; 1 and 10 views are both accepted, 0 and 11 are not. */
  lemma ValidateFormAccepts(f: FormInput)
    ensures ValidateForm(f).None? <==> ContentPresent(f) && ExpiryInRange(f) && ViewLimitInRange(f)
    ensures ContentPresent(f) && ExpiryInRange(f) && (f.viewLimit == 1.0 || f.viewLimit == 10.0) ==>
      ValidateForm(f).None?
    ensures f.viewLimit == 0.0 || f.viewLimit == 11.0 ==> ValidateForm(f).Some?
  {
  }

  /** The submitted content is the trimmed text of the selected tab. */
  function SubmitRequest(f: FormInput): (req: CreateRequest)
    ensures req.content == Trim(SelectedContent(f)) && req.kind == f.kind
    ensures req.expireAt == f.expiryHours && req.viewLimit == f.viewLimit
  {
    CreateRequest(Trim(SelectedContent(f)), f.expiryHours, f.viewLimit, f.kind)
  }

  /** How the awaited `createMessage` call settled: it returned an id, or it threw with a message (`""` when it had none). */
  datatype CreateReply = Returned(id: string) | Threw(message: string)

  /**
   * The error the submit handler records for a reply: none for a non-empty
   * id; an empty id is thrown as "Failed to create message"; a thrown error
   * keeps its message, or the generic one when it has none.
   */
  function SubmitError(reply: CreateReply): (e: Option<ErrorState>)
    ensures e.None? <==> reply.Returned? && reply.id != ""
    ensures e.Some? ==> e.value.field == SubmitField && e.value.message != ""
    ensures reply.Returned? && reply.id == "" ==> e == Some(ErrorState(CreateFailedMessage, SubmitField))
    ensures reply.Threw? && reply.message != "" ==> e == Some(ErrorState(reply.message, SubmitField))
    ensures reply.Threw? && reply.message == "" ==> e == Some(ErrorState(SubmitFallbackMessage, SubmitField))
  {
    match reply
    case Returned(id) =>
      if id == "" then Some(ErrorState(CreateFailedMessage, SubmitField)) else None
    case Threw(message) =>
      Some(ErrorState(if message != "" then message else SubmitFallbackMessage, SubmitField))
  }

  /** The share link: the configured origin (or the default when it is unset or empty), `/message/`, the id. */
  function ShareLink(origin: string, id: string): (link: string)
    ensures |id| < |link| && link[|link| - |id|..] == id
    ensures origin != "" ==> |origin| <= |link| && link[..|origin|] == origin
    ensures origin == "" ==> |DefaultOrigin| <= |link| && link[..|DefaultOrigin|] == DefaultOrigin
  {
    var link := (if origin != "" then origin else DefaultOrigin) + "/message/" + id;
    assert link[|link| - |id|..] == id;
    link
  }

  /** The component's state. */
  class MessageForm {
    var simpleContent: string
    var compoundContent: string
    var isLoading: bool
    var messageId: Option<string>
    var error: Option<ErrorState>
    var copied: bool
    var expiryHours: real
    var viewLimit: real
    var kind: Kind

    function Input(): FormInput
      reads this
    {
      FormInput(simpleContent, compoundContent, expiryHours, viewLimit, kind)
    }

    /** The state a fresh form starts in, and the one the reset handler returns to. */
    predicate IsInitial()
      reads this
    {
      && simpleContent == "" && compoundContent == ""
      && !isLoading && messageId.None? && error.None? && !copied
      && expiryHours == DefaultExpiryHours && viewLimit == DefaultViewLimit && kind == Simple
    }

    constructor ()
      ensures IsInitial()
    {
      simpleContent, compoundContent := "", "";
      isLoading, messageId, error, copied := false, None, None, false;
      expiryHours, viewLimit, kind := DefaultExpiryHours, DefaultViewLimit, Simple;
    }

    /**
     * The synchronous part of `handleSubmit`, up to the awaited call: a
     * failed validation records its error and sends nothing; otherwise
     * loading starts, the error clears and the request is sent.
     */
    method BeginSubmit() returns (sent: Option<CreateRequest>)
      modifies this`isLoading, this`error
      ensures Input() == old(Input())
      ensures sent.None? <==> ValidateForm(Input()).Some?
      ensures sent.None? ==> error == ValidateForm(Input()) && isLoading == old(isLoading)
      ensures sent.Some? ==> sent.value == SubmitRequest(Input()) && isLoading && error.None?
    {
      var f := Input();
      var invalid := ValidateForm(f);
      if invalid.Some? {
        error := invalid;
        assert Input() == f;
        return None;
      }
      isLoading := true;
      error := None;
      sent := Some(SubmitRequest(f));
      assert Input() == f;
    }

    /** The rest of `handleSubmit` once the call settles: the id or a submit error, and loading always ends. */
    method FinishSubmit(reply: CreateReply)
      modifies this`isLoading, this`error, this`messageId
      ensures !isLoading
      ensures error == (if SubmitError(reply).Some? then SubmitError(reply) else old(error))
      ensures messageId == (if SubmitError(reply).None? then Some(reply.id) else old(messageId))
    {
      match reply {
        case Returned(id) =>
          if id == "" {
            error := Some(ErrorState(CreateFailedMessage, SubmitField));
          } else {
            messageId := Some(id);
          }
        case Threw(message) =>
          error := Some(ErrorState(if message != "" then message else SubmitFallbackMessage, SubmitField));
      }
      isLoading := false;
    }

    /** `handleSubmit` as a whole; `reply` is how the call settles if it is made. */
    method HandleSubmit(reply: CreateReply) returns (sent: Option<CreateRequest>)
      modifies this`isLoading, this`error, this`messageId
      ensures sent.None? <==> ValidateForm(old(Input())).Some?
      ensures sent.None? ==>
        error == ValidateForm(old(Input())) && isLoading == old(isLoading) && messageId == old(messageId)
      ensures sent.Some? ==> sent.value == SubmitRequest(old(Input())) && !isLoading && error == SubmitError(reply)
      ensures sent.Some? ==> messageId == (if SubmitError(reply).None? then Some(reply.id) else old(messageId))
    {
      sent := BeginSubmit();
      if sent.Some? {
        FinishSubmit(reply);
      }
    }

    /**
     * The copy button, shown once a message is stored: the share link is
     * written to the clipboard, and the form marks it copied once the write
     * succeeds.
     */
    method CopyLink(origin: string, writeSucceeded: bool) returns (written: string)
      requires messageId.Some?
      modifies this`copied
      ensures written == ShareLink(origin, messageId.value)
      ensures copied == (old(copied) || writeSucceeded)
    {
      written := ShareLink(origin, messageId.value);
      if writeSucceeded {
        copied := true;
      }
    }

    /** "Create Another Message": every field back to its default. */
    method Reset()
      modifies this
      ensures IsInitial()
    {
      messageId := None;
      simpleContent := "";
      compoundContent := "";
      expiryHours := 24.0;
      viewLimit := 1.0;
      kind := Simple;
      copied := false;
      error := None;
      isLoading := false;
    }
  }
}

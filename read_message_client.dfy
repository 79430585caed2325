/**
 * The reader's page: a sealed message with a "Reveal Message" button; a
 * reveal asks the server for the message and then shows it with its view
 * counter and a status banner, or shows "Message Not Found" when the request
 * fails.
 *
 * The reply is a parameter. A resolved value is described by the properties
 * the page reads from it, each of which may be undefined: the page is written
 * for an object with all four, while the server as written returns the value
 * it signed (for a message made by the form, the form's options object, which
 * has `content` and `type` but no view count), or `null`.
 */
module ReadMessageClient {
  import opened Wrappers
  import opened Strings
  import opened MessageKind
  import opened Codec
  import Page
  import Actions
  import MessageSchema

  datatype ErrorState = ErrorState(message: string, code: string)

  /**
   * The properties `content`, `remainingViews`, `isLastView` and `type` of a
   * resolved value; `None` is an undefined property, and an undefined
   * `isLastView` is kept as `false`, which every use of it reads the same way.
   */
  datatype ReadResponse = ReadResponse(
    content: Option<string>,
    remainingViews: Option<int>,
    isLastView: bool,
    kind: Option<Kind>)

  /** How the awaited `readMessage(id)` call settles. */
  datatype RevealReply =
    | Resolved(response: ReadResponse)
    | ResolvedNull                           // reading `.content` of null throws a TypeError
    | Rejected(message: string, code: string) // "" stands for a missing message or code

  const RevealFailedMessage := "Failed to reveal message"
  const UnknownErrorCode := "UNKNOWN_ERROR"
  /** The message of the TypeError raised by reading `content` of null, as V8 words it. */
  const NullContentMessage := "Cannot read properties of null (reading 'content')"

  const LastViewSentence := "This message has been permanently deleted."
  const StatusPrefix := "This message will be deleted after "
  const CounterSuffix := " views remaining"
  const UndefinedText := "undefined"

  /** The component's state. `None` stands for `null`/`undefined`. */
  datatype ViewState = ViewState(
    isRevealed: bool,
    isLastView: bool,
    remainingViews: Option<int>,
    message: Option<string>,
    kind: Option<Kind>,
    isLoading: bool,
    error: Option<ErrorState>)

  const InitialState := ViewState(false, false, Some(0), None, Some(Simple), false, None)

  /** The error the catch block records, if the reply throws: a missing message or code falls back to a default. */
  function RevealError(reply: RevealReply): (e: Option<ErrorState>)
    ensures e.Some? <==> reply.ResolvedNull? || reply.Rejected?
    ensures e.Some? ==> e.value.message != "" && e.value.code != ""
    ensures reply.Rejected? && reply.message != "" ==> e.value.message == reply.message
    ensures reply.Rejected? && reply.code != "" ==> e.value.code == reply.code
    ensures reply.Rejected? && reply.message == "" ==> e.value.message == RevealFailedMessage
    ensures reply.Rejected? && reply.code == "" ==> e.value.code == UnknownErrorCode
    ensures reply.ResolvedNull? ==> e == Some(ErrorState(NullContentMessage, UnknownErrorCode))
  {
    match reply
    case ResolvedNull => Some(ErrorState(NullContentMessage, UnknownErrorCode))
    case Rejected(message, code) =>
      Some(ErrorState(if message != "" then message else RevealFailedMessage,
                      if code != "" then code else UnknownErrorCode))
    case _ => None
  }

  /** The start of `revealMessage`: loading begins and the error clears. */
  function BeginStep(s: ViewState): (t: ViewState)
    ensures t.isLoading && t.error.None?
    ensures t.(isLoading := s.isLoading, error := s.error) == s
  {
    s.(isLoading := true, error := None)
  }

  /**
   * The rest of `revealMessage` once the call settles; loading always ends.
   * A resolved value's four properties are copied whether defined or not.
   */
  function CompleteStep(s: ViewState, reply: RevealReply): (t: ViewState)
    ensures !t.isLoading
    ensures t.error == (if RevealError(reply).Some? then RevealError(reply) else s.error)
    ensures RevealError(reply).Some? ==> t == s.(isLoading := false, error := t.error, message := None)
    ensures reply.Resolved? ==>
      && t.isRevealed && t.message == reply.response.content
      && t.remainingViews == reply.response.remainingViews
      && t.isLastView == reply.response.isLastView && t.kind == reply.response.kind
  {
    match reply
    case Resolved(r) =>
      s.(message := r.content, remainingViews := r.remainingViews,
         isLastView := r.isLastView, kind := r.kind, isRevealed := true, isLoading := false)
    case _ =>
      s.(error := RevealError(reply), message := None, isLoading := false)
  }

  /** A whole reveal: the error left is exactly the reply's, and without one the message is revealed. */
  function RevealStep(s: ViewState, reply: RevealReply): (t: ViewState)
    ensures !t.isLoading
    ensures t.error == RevealError(reply)
    ensures t.error.None? ==> t.isRevealed
  {
    CompleteStep(BeginStep(s), reply)
  }

  /** What the message area shows: the text as is for a simple message, the compound editor otherwise. */
  datatype Body = PlainBody(text: Option<string>) | EditorBody(content: string)

  datatype Screen =
    | NotFoundScreen
    | Sealed(buttonDisabled: bool)
    | Revealed(counter: Option<string>, body: Body, status: string, lastViewTone: bool)

  /** A number as a JSX child renders it; an undefined child renders as nothing. */
  function ChildText(views: Option<int>): (text: string)
    ensures views.Some? ==> ParseDecimal(text) == views.value
    ensures views.None? ==> text == ""
  {
    if views.Some? then
      DecimalRoundTrip(views.value);
      DecimalString(views.value)
    else ""
  }

  /** A number as a template literal renders it; undefined renders as "undefined". */
  function ViewsText(views: Option<int>): (text: string)
    ensures views.Some? ==> ParseDecimal(text) == views.value
    ensures views.None? ==> text == UndefinedText
  {
    if views.Some? then
      DecimalRoundTrip(views.value);
      DecimalString(views.value)
    else UndefinedText
  }

  predicate EndsWith(s: string, suffix: string) {
    |suffix| <= |s| && s[|s| - |suffix|..] == suffix
  }

  /**
   * The banner: the deletion notice on the last view; otherwise the views
   * left, ending in "views." exactly when more than one view is left.
   */
  function StatusSentence(isLastView: bool, views: Option<int>): (text: string)
    ensures isLastView ==> text == LastViewSentence
    ensures !isLastView ==> |StatusPrefix| < |text| && text[..|StatusPrefix|] == StatusPrefix
    ensures !isLastView ==> (EndsWith(text, " more views.") <==> views.Some? && views.value > 1)
  {
    if isLastView then LastViewSentence
    else
      var plural := views.Some? && views.value > 1;
      var ending := " more view" + (if plural then "s" else "") + ".";
      var head := StatusPrefix + ViewsText(views);
      var text := head + ending;
      assert text[|head|..] == ending;
      assert text[..|StatusPrefix|] == StatusPrefix by {
        assert text[..|StatusPrefix|] == head[..|StatusPrefix|];
      }
      assert EndsWith(text, " more views.") <==> plural by {
        assert text[|text| - 2] == ending[|ending| - 2];
      }
      text
  }

  /** What the page renders for a state. */
  function ScreenOf(s: ViewState): (screen: Screen)
    ensures screen.NotFoundScreen? <==> s.error.Some?
    ensures screen.Sealed? ==> screen.buttonDisabled == s.isLoading
    ensures screen.Revealed? <==> s.error.None? && s.isRevealed
    ensures screen.Revealed? ==>
      && (screen.counter.None? <==> s.isLastView)
      && (screen.counter.Some? ==> screen.counter.value == ChildText(s.remainingViews) + CounterSuffix)
      && (screen.body.PlainBody? <==> s.kind == Some(Simple))
      && (screen.body.PlainBody? ==> screen.body.text == s.message)
      && (screen.body.EditorBody? ==> screen.body.content == s.message.GetOr(""))
      && screen.status == StatusSentence(s.isLastView, s.remainingViews)
      && screen.lastViewTone == s.isLastView
  {
    if s.error.Some? then NotFoundScreen
    else if !s.isRevealed then Sealed(s.isLoading)
    else Revealed(
      if !s.isLastView then Some(ChildText(s.remainingViews) + CounterSuffix) else None,
      if s.kind == Some(Simple) then PlainBody(s.message) else EditorBody(s.message.GetOr("")),
      StatusSentence(s.isLastView, s.remainingViews),
      s.isLastView)
  }

  /** A reveal ends on "Message Not Found" exactly when the reply throws. */
  lemma RevealNotFoundIffThrows(s: ViewState, reply: RevealReply)
    ensures ScreenOf(RevealStep(s, reply)).NotFoundScreen? <==> reply.ResolvedNull? || reply.Rejected?
  {
  }

  /** While the reply is awaited, a sealed page shows a disabled button and no error. */
  lemma RevealWaitsSealed(s: ViewState)
    requires !s.isRevealed
    ensures ScreenOf(BeginStep(s)) == Sealed(true)
  {
  }

  /**
   * A resolved value is shown from its properties alone: a counter unless it
   * says this was the last view, its content as text when its type is
   * "simple" and in the editor otherwise, and the banner for its view count.
   */
  lemma RevealShowsResponse(s: ViewState, r: ReadResponse)
    ensures ScreenOf(RevealStep(s, Resolved(r))) == Revealed(
      if r.isLastView then None else Some(ChildText(r.remainingViews) + CounterSuffix),
      if r.kind == Some(Simple) then PlainBody(r.content) else EditorBody(r.content.GetOr("")),
      StatusSentence(r.isLastView, r.remainingViews),
      r.isLastView)
  {
  }

  /** With a view count in the reply, the counter's number reads back as that count. */
  lemma CounterShowsViews(s: ViewState, r: ReadResponse) returns (digits: string)
    requires !r.isLastView && r.remainingViews.Some?
    ensures ScreenOf(RevealStep(s, Resolved(r))).counter == Some(digits + CounterSuffix)
    ensures ParseDecimal(digits) == r.remainingViews.value
  {
    RevealShowsResponse(s, r);
    digits := ChildText(r.remainingViews);
  }

  /** The banner says "views" for more than one view left and "view" otherwise. */
  lemma StatusPlural(n: int)
    ensures n > 1 ==>
      StatusSentence(false, Some(n)) == StatusPrefix + DecimalString(n) + " more views."
    ensures n <= 1 ==>
      StatusSentence(false, Some(n)) == StatusPrefix + DecimalString(n) + " more view."
  {
  }

  /**
   * What the page receives from the server's `readMessage` as written: the
   * signed value, `null` when there is no unread message, or a rejection
   * (with message `thrown`) when the token does not verify. The form's
   * options object has `content` and `type`; a string has none of the four
   * properties.
   */
  function ServerReply(result: Actions.ReadResult, thrown: string): (reply: RevealReply)
    ensures result.Plaintext? <==> reply.Resolved?
    ensures result.NotFound? <==> reply.ResolvedNull?
    ensures result.DecodeRejected? <==> reply.Rejected?
    ensures result.Plaintext? && result.payload.RequestPayload? ==>
      reply.response == ReadResponse(Some(result.payload.request.content), None, false, Some(result.payload.request.kind))
    ensures result.Plaintext? && result.payload.TextPayload? ==>
      reply.response == ReadResponse(None, None, false, None)
  {
    match result
    case Plaintext(RequestPayload(req)) => Resolved(ReadResponse(Some(req.content), None, false, Some(req.kind)))
    case Plaintext(TextPayload(_)) => Resolved(ReadResponse(None, None, false, None))
    case NotFound => ResolvedNull
    case DecodeRejected => Rejected(thrown, "")
  }

  /**
   * The screen for a resolved object whose `content` and `type` are defined
   * and whose view properties are not: the counter is " views remaining"
   * with nothing before it and the banner reads "undefined more view".
   */
  lemma UndefinedViewsScreen(s: ViewState, content: string, kind: Kind)
    ensures ScreenOf(RevealStep(s, Resolved(ReadResponse(Some(content), None, false, Some(kind))))) == Revealed(
      Some(CounterSuffix),
      if kind == Simple then PlainBody(Some(content)) else EditorBody(content),
      StatusPrefix + UndefinedText + " more view.",
      false)
  {
    RevealShowsResponse(s, ReadResponse(Some(content), None, false, Some(kind)));
    assert StatusSentence(false, None) == StatusPrefix + UndefinedText + " more view.";
    assert ChildText(None) + CounterSuffix == CounterSuffix;
  }

  /**
   * A message sent from the form, from submit to reveal, against the server
   * as written: the first reveal shows the trimmed text in the tab's form
   * (plain for a simple message, in the editor for a compound one), with a
   * counter that reads " views remaining" and a banner that reads "undefined
   * more view", and deletes the record; any later reveal of the link ends on
   * "Message Not Found".
   */
  lemma FormMessageRevealed(
    docs: map<string, MessageSchema.Message>, id: string, f: Page.FormInput, now: int,
    s: ViewState, later: ViewState, thrown: string)
    requires Actions.CreateStep(docs, id, Codec.RequestPayload(Page.SubmitRequest(f)), Actions.DefaultExpireHours, now).0.Success?
    ensures
      var stored := Actions.CreateStep(docs, id, Codec.RequestPayload(Page.SubmitRequest(f)), Actions.DefaultExpireHours, now).1;
      var first := Actions.ReadStep(stored, id);
      var text := Trim(Page.SelectedContent(f));
      && first.1 == docs
      && ScreenOf(RevealStep(s, ServerReply(first.0, thrown))) == Revealed(
           Some(CounterSuffix),
           if f.kind == Simple then PlainBody(Some(text)) else EditorBody(text),
           StatusPrefix + UndefinedText + " more view.",
           false)
      && ScreenOf(RevealStep(later, ServerReply(Actions.ReadStep(first.1, id).0, thrown))) == NotFoundScreen
  {
    var payload := Codec.RequestPayload(Page.SubmitRequest(f));
    var stored := Actions.CreateStep(docs, id, payload, Actions.DefaultExpireHours, now).1;
    Actions.CreateThenRead(docs, id, payload, Actions.DefaultExpireHours, now);
    Actions.ReadIsOneShot(stored, id);
    var text := Trim(Page.SelectedContent(f));
    assert ServerReply(Actions.ReadStep(stored, id).0, thrown)
      == Resolved(ReadResponse(Some(text), None, false, Some(f.kind)));
    UndefinedViewsScreen(s, text, f.kind);
  }

  /** The page's state. */
  class RevealView {
    const id: string
    var isRevealed: bool
    var isLastView: bool
    var remainingViews: Option<int>
    var message: Option<string>
    var kind: Option<Kind>
    var isLoading: bool
    var error: Option<ErrorState>

    function State(): ViewState
      reads this
    {
      ViewState(isRevealed, isLastView, remainingViews, message, kind, isLoading, error)
    }

    constructor (id: string)
      ensures this.id == id && State() == InitialState
    {
      this.id := id;
      isRevealed, isLastView, remainingViews := false, false, Some(0);
      message, kind, isLoading, error := None, Some(Simple), false, None;
    }

    /** The synchronous start of `revealMessage`. */
    method BeginReveal()
      modifies this`isLoading, this`error
      ensures State() == BeginStep(old(State()))
    {
      isLoading := true;
      error := None;
    }

    /** The rest of `revealMessage` once `readMessage(id)` settles with `reply`. */
    method CompleteReveal(reply: RevealReply)
      modifies this
      ensures State() == CompleteStep(old(State()), reply)
    {
      match reply {
        case Resolved(r) =>
          message := r.content;
          remainingViews := r.remainingViews;
          isLastView := r.isLastView;
          kind := r.kind;
          isRevealed := true;
        case ResolvedNull =>
          error := Some(ErrorState(NullContentMessage, UnknownErrorCode));
          message := None;
        case Rejected(m, c) =>
          error := Some(ErrorState(if m != "" then m else RevealFailedMessage,
                                   if c != "" then c else UnknownErrorCode));
          message := None;
      }
      isLoading := false;
    }

    /** `revealMessage` as a whole. */
    method RevealMessage(reply: RevealReply)
      modifies this
      ensures State() == RevealStep(old(State()), reply)
    {
      BeginReveal();
      CompleteReveal(reply);
    }
  }
}

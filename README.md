# OneTime: one-time secret messages, modelled in Dafny

OneTime lets a sender store a secret and share a link to it. Opening the link
reveals the message once, and reading deletes it. This project models the
pieces that decide what is stored and what is shown:

- **Server actions** (`actions.dfy`). `createMessage` encodes the content and
  stores it under a fresh id with an expiry and `isRead = false`.
  `readMessage` looks up an unread record, decodes it, deletes it and returns
  the value that was signed. For a message made by the form, that value is
  the form's whole options object.
- **The Mongoose record** (`message_schema.dfy`). Its required, unique and
  default constraints are modelled.
- **The error taxonomy** (`errors.dfy`). This is `AppError`, the
  `ErrorCodes` table and the `ErrorCode` union.
- **The sender's form** (`page.dfy`). It covers the ordered validation chain,
  the submit handler, the share link, the copy button and the reset handler.
- **The navigation bar's id box** (`navbar.dfy`). The regular expression
  `/.*message\//` is modelled exactly as the engine runs it.
- **The reader's page** (`read_message_client.dfy`). It covers the reveal
  handler, the view counter, the body and the status banner.
- **The Iframe block** (`iframe.dfy`). It turns a short YouTube link into an
  embed link.
- **The Math block** (`math_block.dfy`). Typed text becomes the block's
  content, and every line feed becomes a TeX line break.

Shared pieces:

- `strings.dfy`: JavaScript `trim`, `indexOf`, `replace` with a string
  pattern, and the rendering of a safe integer as text.
- `blocks.dfy`: the editor's inline content.
- `codec.dfy`: a stand-in for the signed token.
- `wrappers.dfy`: `Option` and `Result`, the message kind, and the options
  object the form hands to `createMessage`.

State that the source updates in place is a class with the same fields. The
classes are `Actions.MessageStore` (the collection), `Page.MessageForm`,
`NavBar.SearchBox`, `ReadMessageClient.RevealView` and
`MathBlock.MathBlockState`.

- **Methods and the functions that specify them.** Most methods are proved
  against a pure function of the old state and the inputs:
  - `CreateStep`, `ReadStep`, `BeginStep`, `CompleteStep` and `ValidateForm`
    are step functions;
  - `FinishSubmit` records what `SubmitError` gives;
  - `CopyLink` writes what `ShareLink` gives;
  - `SearchBox.HandleSubmit` navigates to what `NavigationTarget` gives.

  `Reset` and `MathBlockState.OnInput` state their new state directly. The
  lemmas are stated about these functions.
- **Async handlers.** Each one is split into the synchronous part before the
  awaited call and the part after it settles. This makes the loading state in
  between visible.
- **Non-deterministic inputs.** The generated id, the clock and the reply of
  an awaited call are parameters.

## Model

| member | source | states |
|---|---|---|
| Strings.Trim | src/app/page.tsx:32 | `trim` leaves no white space at either end, and its result is empty exactly when the text is all white space (the ECMAScript white-space and line-terminator set); `TrimIsSlice` adds that only white space is removed |
| Strings.TrimStart | src/app/page.tsx:58 | the leading white space is dropped and the result is a suffix of the input |
| Strings.TrimEnd | src/app/page.tsx:58 | the trailing white space is dropped and the result is a prefix of the input |
| Strings.TrimIsSlice | src/components/NavBar.tsx:15 | the trimmed text is a contiguous slice of the input, and everything cut off before and after it is white space |
| Strings.TrimKeeps | src/components/NavBar.tsx:15 | text that does not start or end with white space is left unchanged |
| Strings.TrimIdempotent | src/components/NavBar.tsx:15 | trimming twice gives what trimming once does |
| Strings.IndexOfFrom | src/components/shared/Iframe.tsx:46 | the result is the first occurrence of the pattern at or after the start index; none means there is no occurrence |
| Strings.ReplaceFirstSpec | src/components/shared/Iframe.tsx:46 | `replace` with a string pattern substitutes only the first occurrence and keeps the rest; without an occurrence the text is unchanged |
| Strings.NatString | src/components/ReadMessageClient.tsx:127 | a natural number is rendered as decimal digits with no leading zero |
| Strings.ParseNatString | src/components/ReadMessageClient.tsx:127 | the digits read back as the number |
| Strings.DecimalRoundTrip | src/components/ReadMessageClient.tsx:147 | the rendering of any integer, negative ones included, reads back as that integer |
| MessageSchema.MissingPaths | src/models/Message.ts:3-8 | a path is reported exactly when its required value is missing; for `id` and `content` that includes the empty string |
| MessageSchema.Cast | src/models/Message.ts:3-8 | validation succeeds exactly when the three required paths hold, fails with all the offending paths, keeps the given fields, and defaults `isRead` to false |
| MessageSchema.IdsUnique | src/models/Message.ts:4 | no two records of the collection share an id |
| MessageSchema.CastValid | src/models/Message.ts:3-8 | an accepted document is a valid record, and it is unread unless the input set `isRead` |
| Codec.Decrypt | src/lib/crypto.ts:12-15 | a token decodes exactly when this server signed it, and it decodes to the signed `content` claim, whatever value that was |
| Codec.Encrypt | src/lib/crypto.ts:5-10 | a token decodes to the value it was signed over and is never the empty string |
| Codec.DecryptOnlyEncrypted | src/lib/crypto.ts:5-15 | a token decodes to a value exactly when it is that value's token |
| Actions.CreateStep | src/app/actions.ts:8-24 | the collection stays well formed; the call succeeds and returns the id exactly when the id is non-empty and unused, inserting the encoded record; an empty id is a validation error and a used id a duplicate-key error, and both leave the collection unchanged |
| Actions.ReadStep | src/app/actions.ts:26-38 | `null` exactly when no unread record has the id; on success the record is deleted and the decoded content returned; a token that fails to decode rejects before the delete, so the record stays |
| Actions.CreateInsertsOne | src/app/actions.ts:16-23 | a successful create adds exactly one key, the returned id, and changes no other record |
| Actions.CreatedRecordFields | src/app/actions.ts:10-21 | the stored content is the token signed over the given value and decodes back to it; the record is unread and expires `expireAt` hours after creation |
| Actions.ExpiryFrom | src/app/actions.ts:13-14 | the expiry lies a whole number of hours after the creation time, exactly `expireAt` of them |
| Actions.ReadRemovesOnlyTarget | src/app/actions.ts:34-35 | a successful read deletes its record and only that one |
| Actions.ReadIsOneShot | src/app/actions.ts:28-35 | after a successful read, reading the same id again gives `null` and changes nothing |
| Actions.CreateThenRead | src/app/actions.ts:8-38 | reading the id a create returned yields the original content and restores the collection as it was before the create |
| Actions.ReadIgnoresExpiry | src/app/actions.ts:28 | the lookup filters only on `id` and `isRead`, so expiry times never change what a read returns or deletes |
| Actions.ReadMissingRepeatedly | src/app/actions.ts:28-32 | any number of reads of an id with no unread record all give `null` |
| Actions.CreateThenReadRepeatedly | src/app/actions.ts:8-38 | after a create, of `n` reads only the first returns the content and every later one gives `null` (there is no view limit) |
| Actions.MessageStore.CreateMessage | src/app/actions.ts:8-24 | the call's result and the new collection are those of `CreateStep`; the collection stays well formed; `expireAt` defaults to 24 |
| Actions.MessageStore.ReadMessage | src/app/actions.ts:26-38 | the call's result and the new collection are those of `ReadStep` |
| Actions.CreateReadTwice | src/app/actions.ts:8-38 | on a fresh store, create then read twice gives the content and then `null` |
| Errors.NewAppError | src/lib/errors.ts:1-10 | the error keeps its status, message and code, and is named "AppError" |
| Errors.ParseCode | src/lib/errors.ts:21 | a string parsed as a code is that code's string |
| Errors.ErrorCodesSelfNamed | src/lib/errors.ts:12-19 | the table has six keys and each maps to a string equal to itself |
| Errors.CodesAreTableEntries | src/lib/errors.ts:12-19 | every code's string is a key of the table that names itself |
| Errors.CodeRoundTrip | src/lib/errors.ts:12-21 | every code is recovered from its string |
| Errors.CodesDistinct | src/lib/errors.ts:12-19 | two codes have the same string exactly when they are the same code |
| Errors.IsErrorCode | src/lib/errors.ts:21 | a string belongs to the union exactly when it is a key of the table that maps to itself |
| Errors.ErrorCodeUnion | src/lib/errors.ts:21 | a string belongs to the `ErrorCode` union exactly when it is one of the six codes |
| Page.ValidateForm | src/app/page.tsx:31-48 | no error exactly when no check fails; otherwise the error of the first failing check (content, then expiry, then view limit) with that check's message |
| Page.ValidateFormAccepts | src/app/page.tsx:31-48 | the form is accepted exactly when the selected content trims to non-empty, the expiry is within 1 to 168 hours and the view limit within 1 to 10; both bounds are inclusive |
| Page.SubmitRequest | src/app/page.tsx:57-62 | the request carries the trimmed content of the selected tab, the expiry, the view limit and the kind |
| Page.SubmitError | src/app/page.tsx:64-81 | no error exactly when a non-empty id came back; an empty id gives "Failed to create message"; a thrown error keeps its message, or gets the generic one when it has none |
| Page.ShareLink | src/app/page.tsx:87 | the link ends with the id and starts with the configured origin, or with `http://localhost:3000` when none is set |
| Page.MessageForm.constructor | src/app/page.tsx:21-29 | the form starts empty, not loading, with no id or error, 24 hours, 1 view and the simple tab |
| Page.MessageForm.BeginSubmit | src/app/page.tsx:50-54 | a failed validation records its error and sends nothing; otherwise loading starts, the error clears and the request is sent; the inputs are unchanged |
| Page.MessageForm.FinishSubmit | src/app/page.tsx:64-84 | loading ends; a non-empty id is recorded, otherwise the submit error is |
| Page.MessageForm.HandleSubmit | src/app/page.tsx:50-85 | the whole handler: nothing is sent exactly when validation fails; when a request is sent, loading ends and the error and id are those of the reply |
| Page.MessageForm.CopyLink | src/app/page.tsx:249-252 | the share link (the origin or the default one, `/message/`, the id) is written, and the form is marked copied once the write succeeds |
| Page.MessageForm.Reset | src/app/page.tsx:259-268 | every field returns to the initial state |
| NavBar.LineEnd | src/components/NavBar.tsx:15 | the end of the line holding an index: no line terminator before it, and one at it unless the text ends there |
| NavBar.LastMarkerIn | src/components/NavBar.tsx:15 | the last `message/` lying wholly within the range, or none in the range |
| NavBar.MatchFrom | src/components/NavBar.tsx:15 | the regex finds a match exactly when `message/` occurs; the match ends with a `message/` |
| NavBar.MarkerWithinLine | src/components/NavBar.tsx:15 | a `message/` starting at an index lies wholly on that index's line, so `.*` can reach it |
| NavBar.StripThroughMarker | src/components/NavBar.tsx:15 | text without `message/` is returned unchanged; otherwise the result is shorter by at least the marker |
| NavBar.CleanId | src/components/NavBar.tsx:15 | the id has no white space at either end; it is the trimmed text when there is no `message/`; from single-line text it holds no `message/` |
| NavBar.StrippedLineHasNoMarker | src/components/NavBar.tsx:15 | stripping and trimming a single line leaves no `message/` |
| NavBar.CleanIdWithoutMarker | src/components/NavBar.tsx:15 | text without `message/` is only trimmed |
| NavBar.SingleLineStrip | src/components/NavBar.tsx:15 | on one line, everything up to and including the last `message/` is removed and none is left |
| NavBar.NoMarkerInSlice | src/components/NavBar.tsx:15 | a slice of text without `message/` has none either |
| NavBar.CleanIdIdempotent | src/components/NavBar.tsx:15 | cleaning single-line input twice gives what cleaning it once does |
| NavBar.NavigationTarget | src/components/NavBar.tsx:15-18 | the box navigates exactly when the cleaned id is non-empty, to `/message/` and the id |
| NavBar.SingleLineConcat | src/components/NavBar.tsx:15 | joining two single-line texts gives a single-line text |
| NavBar.LastMarkerBeforeId | src/components/NavBar.tsx:15 | in `…/message/<id>` with a generated id, no `message/` starts after the one before the id |
| NavBar.StripShareLink | src/components/NavBar.tsx:15 | cutting a share link through its marker leaves exactly the id |
| NavBar.CleanShareLink | src/components/NavBar.tsx:15 | cleaning `<origin>/message/<id>` with a single-line origin and a generated id gives the id |
| NavBar.ShareLinkRoundTrip | src/components/NavBar.tsx:13-20 | pasting the share link the form shows (src/app/page.tsx:87) into the box yields the id and navigates to `/message/<id>` |
| NavBar.MarkerSingleLine | src/components/NavBar.tsx:15 | `message/` holds no line terminator |
| NavBar.SearchBox.HandleSubmit | src/components/NavBar.tsx:13-20 | navigates to the target of the box's text and empties the box exactly when there is one; otherwise nothing changes |
| ReadMessageClient.RevealError | src/components/ReadMessageClient.tsx:48-54 | an error is recorded exactly when the reply throws; a missing message or code falls back to "Failed to reveal message" or "UNKNOWN_ERROR"; a `null` reply is the TypeError from reading `content` |
| ReadMessageClient.BeginStep | src/components/ReadMessageClient.tsx:30-32 | loading starts, the error clears, and nothing else changes |
| ReadMessageClient.CompleteStep | src/components/ReadMessageClient.tsx:34-57 | loading ends; a thrown reply sets the error and clears the message; a resolved object sets the content, the views, the last-view flag and the kind, and reveals; the content, the views and the kind may each be undefined, and an undefined last-view flag is kept as false, which is how every use of it reads it |
| ReadMessageClient.RevealStep | src/components/ReadMessageClient.tsx:30-58 | after the whole handler loading has ended, the error is that of the reply, and without an error the message is revealed |
| ReadMessageClient.ChildText | src/components/ReadMessageClient.tsx:127 | a JSX child: a number renders so that it reads back as itself, and undefined renders as nothing |
| ReadMessageClient.ViewsText | src/components/ReadMessageClient.tsx:147 | a template literal: a number renders so that it reads back as itself, and undefined renders as "undefined" |
| ReadMessageClient.StatusSentence | src/components/ReadMessageClient.tsx:145-148 | on the last view the deletion notice; otherwise a sentence starting "This message will be deleted after " that ends in "more views." exactly when the views left are a number above 1 |
| ReadMessageClient.ScreenOf | src/components/ReadMessageClient.tsx:61-156 | "Message Not Found" exactly when there is an error; the sealed page's button is disabled while loading; the revealed page shows the counter (the views left, or nothing when undefined, then " views remaining") exactly when it is not the last view, the plain text exactly for the simple kind and the editor otherwise, the status sentence, and the red tone exactly on the last view |
| ReadMessageClient.RevealNotFoundIffThrows | src/components/ReadMessageClient.tsx:30-78 | a reveal ends on "Message Not Found" exactly when the reply throws |
| ReadMessageClient.RevealWaitsSealed | src/components/ReadMessageClient.tsx:100-112 | while the reply is awaited, a sealed page shows a disabled button |
| ReadMessageClient.RevealShowsResponse | src/components/ReadMessageClient.tsx:34-151 | any resolved object is shown in full: a counter unless it is the last view, the text for a simple message or the editor (with `""` for missing content) otherwise, and the banner for the views left |
| ReadMessageClient.CounterShowsViews | src/components/ReadMessageClient.tsx:124-129 | the counter's number reads back as the views left |
| ReadMessageClient.StatusPlural | src/components/ReadMessageClient.tsx:145-148 | the banner says "views" for more than one view left and "view" otherwise |
| ReadMessageClient.UndefinedViewsScreen | src/components/ReadMessageClient.tsx:124-148 | an object with `content` and `type` but no view properties shows a counter of just " views remaining" and a banner ending "undefined more view." |
| ReadMessageClient.ServerReply | src/app/actions.ts:26-38 | what `readMessage` as written sends: for a message the form made, its options object, so `content` and `type` are defined and `remainingViews` and `isLastView` are not; for a bare string payload an object with nothing defined; `null` when nothing matched; a rejection when the token does not verify |
| ReadMessageClient.FormMessageRevealed | src/app/page.tsx:57-62 | end to end against the server as written: a message the form created is revealed once with its trimmed text (plain for the simple kind, the editor otherwise), a counter reading " views remaining" and a banner ending "undefined more view."; the read deletes the record, and a second reveal ends on "Message Not Found" |
| ReadMessageClient.RevealView.constructor | src/components/ReadMessageClient.tsx:20-28 | the page starts sealed with no error, not loading, 0 views and the simple kind |
| ReadMessageClient.RevealView.BeginReveal | src/components/ReadMessageClient.tsx:30-32 | the new state is `BeginStep` of the old one |
| ReadMessageClient.RevealView.CompleteReveal | src/components/ReadMessageClient.tsx:34-57 | the new state is `CompleteStep` of the old one and the reply |
| ReadMessageClient.RevealView.RevealMessage | src/components/ReadMessageClient.tsx:30-58 | the whole reveal: begin, then complete |
| Blocks.FirstItem | src/components/shared/Iframe.tsx:20 | the first inline item exists exactly when there is content and it is not empty |
| Iframe.BlockSrc | src/components/shared/Iframe.tsx:20-31 | the text of a first text item, the target of a first link, and "" otherwise |
| Iframe.FrameSrc | src/components/shared/Iframe.tsx:45-46 | the frame's src is `blockSrc` with its first `youtu.be/` rewritten, and it differs from `blockSrc` exactly when `blockSrc` holds `youtu.be/` |
| Iframe.RewriteFirstShortLink | src/components/shared/Iframe.tsx:46 | only the first `youtu.be/` becomes `www.youtube.com/embed/`; later ones stay |
| Iframe.RewriteChangesIffShortLink | src/components/shared/Iframe.tsx:46 | the source changes exactly when it holds `youtu.be/` |
| Iframe.ShortLinkEmbedded | src/components/shared/Iframe.tsx:46 | `https://youtu.be/<v>` becomes `https://www.youtube.com/embed/<v>` |
| MathBlock.BlockText | src/components/shared/Math.tsx:20-26 | the text of a first item that has one, and "" otherwise |
| MathBlock.EscapeNewlines | src/components/shared/Math.tsx:54 | the result holds no line feed, and it is one character longer per line feed |
| MathBlock.EscapeConcat | src/components/shared/Math.tsx:54 | the global replace works character by character, so it distributes over concatenation |
| MathBlock.EscapeUnchangedIff | src/components/shared/Math.tsx:54 | the text passes unchanged exactly when it holds no line feed |
| MathBlock.EscapeNewlineExample | src/components/shared/Math.tsx:54 | `a`, a line feed and `b` become `a\\b` |
| MathBlock.MathBlockState.OnInput | src/components/shared/Math.tsx:34-42 | the typed text, or "" when there is none, becomes the block's only unstyled text item, and the block then reads back that text |
| MathBlock.MathBlockState.Rendered | src/components/shared/Math.tsx:44-55 | what the renderer receives holds no line feed |

## Left out

- `db.ts` (the connection) is not part of this model. Every action runs
  against the collection directly.
- Actions.MessageStore.CreateMessage: the id that `nanoid` draws at random is
  a parameter. A collision with a stored id is modelled as the unique index's
  duplicate-key error.
- Actions.ExpiryFrom: `setHours(getHours() + expireAt)` is modelled as adding
  whole hours of milliseconds. Local-time and daylight-saving effects are left
  out, and so is the invalid date that a non-numeric `expireAt` gives. Nothing
  reads `expiresAt` back, so no read depends on it.
- Codec.Encrypt, Codec.Decrypt: the HS256-signed JSON Web Token, its secret
  key, its issued-at claim and its signature check are replaced by an abstract
  token that is either signed over a value or any other string. Round-trip
  decoding and rejection of tokens this server did not sign are modelled. The
  compact serialisation, secrecy and integrity are not.
- Callers and server disagree on the call shapes, and the model follows each
  side's code as written:
  - `page.tsx` calls `createMessage` with one options object. On the server
    that object is the `content`, and `expireAt` falls back to 24.
    `Page.SubmitRequest` models the object the form sends.
    `Actions.CreateStep` models the server's parameters.
  - The reader page expects `{content, remainingViews, isLastView, type}`
    from `readMessage`. The server returns the signed value, which for a
    form message is `{content, expireAt, viewLimit, type}`, or `null`. So
    `content` and `type` arrive, and `remainingViews` and `isLastView` are
    undefined. `ReadMessageClient.FormMessageRevealed` states the screen
    that results.
- The view limit travels inside the token but is never read or enforced by
  the server as written. Every read deletes the record.
- Promises, the async scheduling of state updates and concurrent requests are
  left out. Each handler runs as a sequence of whole steps, and the reply of
  each awaited call is a parameter.
- Confetti, `console.log`, the clipboard API, navigation (modelled as the
  target returned), animation, styling and the rest of the JSX are left out.
  The screens and texts that the logic selects are modelled.
- The trivial input setters (`onChange` of the text, number and tab inputs,
  and the search box's input) are left out. The form state they write is the
  class's fields.
- Page.ValidateForm: the number inputs are modelled as reals. A number
  input's value is either "" or a valid number, and `Number("")` is 0, so
  `NaN` cannot arise there. Fractional values are kept as reals. Floating-point
  rounding is not modelled.
- The editors (`Editor.tsx`, `CompoundEditor.tsx`, `CompoundRawEditor.tsx`
  and `RawEditor.tsx`), the Blockquote and Hr blocks and the message route's
  server page are not part of this model.
- The TeX rendering of the Math block is not modelled. The model stops at the
  string it receives.
- ReadMessageClient.RevealError: in a production build, the framework replaces
  the message of an error thrown on the server. A rejection's message is taken
  as it arrives.
- ReadMessageClient.ChildText, ReadMessageClient.ViewsText: a view count is
  modelled as an integer rendered as plain decimal digits. That is exact for
  safe integers only. JavaScript renders numbers from 1e21 up in exponent
  notation, rounds integers beyond 2^53 and renders fractions. None of this
  is modelled. A real count is at most 10, and the server as written sends
  none.
- ReadMessageClient.RevealError: the TypeError text for reading `content` of
  `null` is worded as the V8 engine words it. Other engines word it
  differently.

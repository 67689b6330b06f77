# Chat session of the PDF-powered chatbot, in Dafny

The chatbot is one React component, `Chatbot` in `page.tsx`. It keeps a chat
transcript, the text typed in the input box, a "typing" flag, the name of the
last uploaded file and the text parsed out of the last uploaded PDF. This
project models the logic that changes that state:

- **Sending a message** (`sendMessage`). A blank input is ignored. Otherwise the
  trimmed input is appended as a user turn, the input is cleared and the typing
  flag is raised. The request contents are then built: every earlier turn with
  its role (`"user"` or `"model"`), followed by the outgoing text. That text is
  the trimmed input plus a fixed `[Context from uploaded PDF:]` block whenever
  PDF text is pending. When the request ends, exactly one bot turn is
  appended: the trimmed reply, a fixed "sorry" notice when there is no usable
  reply, or a fixed error notice when the request failed. The typing flag
  drops in every case. The function suspends at the network call, so the model
  splits it into `BeginSend` and `CompleteSend`. `SendMessage` runs both with
  the network's answer as a parameter.
- **Uploading a PDF** (`handleFileUpload`, `parsePDF`). Only a file that
  declares the media type `application/pdf` is accepted, and its name is
  recorded. When the parse finishes, each page's text fragments are joined
  with a space and each page is followed by a line break. The whole text is
  trimmed and replaces any earlier pending text. A parse failure leaves the
  pending text as it was.
- **Clearing the chat** (`clearChat`) empties the transcript and forgets the
  file name and the pending PDF text.

Modules:

- `Wrappers` (`wrappers.dfy`): `Option`.
- `JsString` (`jsstring.dfy`): JavaScript's `trim` (with ECMAScript's set of
  white-space and line-terminator characters) and `Array.prototype.join`, and
  the facts about them the rest relies on.
- `PdfExtract` (`pdfextract.dfy`): the page loop of `parsePDF` as a method
  with a loop invariant, and the specification function it is proved against.
- `Chat` (`chat.dfy`): messages, request entries, the outgoing text, the
  request contents and the reply text, as functions with lemmas.
- `ChatSession` (`session.dfy`): the component's state as a class `Session`
  whose methods are the event handlers. Each method names only the fields it
  writes in its `modifies` clause, so every other field is unchanged.
  `Valid()` is the invariant that every method keeps: every stored turn is
  non-empty and trimmed, and the pending PDF text is trimmed.

Behaviour of the code worth noting:

- `clearChat` leaves the typing flag alone.
- A response with a non-2xx status is not treated as a failure by itself. If
  its body is JSON, it is parsed like any other response. With no candidate
  text in it, it yields the "sorry" notice, and the caller passes it as
  `Success(None)`. If its body is not JSON, `response.json()` throws, the
  `catch` block runs, and the caller passes `Failure`.
- As written, `fetch` gets the options object as its only argument. It turns
  the object into the string `"[object Object]"` and requests that address
  relative to the page, as a GET with no body. So the request contents the
  model returns never leave the browser, and a body that is not JSON sends the
  cycle into the `catch` block, which appends the error notice. The model
  keeps the outcome a parameter, so it covers both this and a working call.
- The file name is recorded as soon as the upload is accepted, before parsing,
  and it stays recorded when the parse then fails. A parse failure is only
  logged to the console; no notice reaches the user.
- Joining the page lines with line breaks and then trimming gives the same
  text as the page loop, which writes a line break after every page and
  trims; `ExtractedTextIsTrimmedJoin` proves it.

## Model

| member | source | states |
|---|---|---|
| `JsString.IsWhitespace` | page.tsx:89 | the characters `trim` removes: ECMAScript white space (tab, vertical tab, form feed, zero-width no-break space and every space separator) and line terminators (line feed, carriage return, line and paragraph separators) |
| `JsString.TextStart` | page.tsx:94 | scanning forward from an index stops at the first character that is not white space, or at the end; everything skipped is white space |
| `JsString.TextEnd` | page.tsx:94 | scanning backward from an index stops just after the last character that is not white space, or at the start; everything skipped is white space |
| `JsString.Trim` | page.tsx:89 | the result has no white space at either end, and it is empty exactly when the input is all white space (the `!input.trim()` test) |
| `JsString.TrimCharacterization` | page.tsx:94 | whenever a string is white space, then a trimmed middle, then white space, `Trim` returns exactly that middle |
| `JsString.TrimFixpoint` | page.tsx:70 | `Trim` leaves a string unchanged exactly when it is already trimmed, so trimming twice is trimming once |
| `JsString.TrimDropsTrailingWhitespace` | page.tsx:66-70 | white space appended at the end never survives `Trim` |
| `JsString.Join` | page.tsx:66 | `Array.prototype.join`: no parts give the empty string, one part is itself, and further parts are each preceded by the separator |
| `JsString.JoinSnoc` | page.tsx:65-66 | joining one more fragment adds the separator and that fragment at the end |
| `PdfExtract.PagesText` | page.tsx:61-67 | the `fullText` accumulator after the given pages: each page's fragments joined with a space, each page followed by a line break, pages in order |
| `PdfExtract.ExtractedText` | page.tsx:70 | the accumulated page text, trimmed; the text the parse stores |
| `PdfExtract.AssembleText` | page.tsx:61-70 | the page loop followed by the trim returns exactly `ExtractedText(pages)`, and the result is trimmed |
| `PdfExtract.PagesTextAppend` | page.tsx:62-67 | the accumulated text of a document is that of its first pages followed by that of the rest |
| `PdfExtract.PagesTextIsJoinedLines` | page.tsx:62-67 | for a non-empty document the accumulated text is the space-joined page lines joined with line breaks, plus one final line break |
| `PdfExtract.ExtractedTextIsTrimmedJoin` | page.tsx:61-70 | the extracted text equals the page lines joined with line breaks and trimmed |
| `PdfExtract.PagesTextExample` | page.tsx:61-67 | pages `[["a","b"],["c"]]` accumulate to `"a b\nc\n"` |
| `PdfExtract.ExtractedTextExample` | page.tsx:61-70 | pages `[["a","b"],["c"]]` give `"a b\nc"` |
| `Chat.RoleOf` | page.tsx:108 | the role is `"user"` or `"model"`, and it is `"user"` exactly for user turns |
| `Chat.EntryOf` | page.tsx:107-110 | the request entry of one message: its sender's role and its stored content |
| `Chat.HistoryEntries` | page.tsx:107-110 | one entry per earlier message, in order, each with that message's role and stored content |
| `Chat.HistoryAppend` | page.tsx:97-110 | the history of an extended transcript extends the earlier history, so appending turns never rewrites what was already sent |
| `Chat.CombinedUserContent` | page.tsx:103-104 | the trimmed input, then the marker and the PDF text when PDF text is pending |
| `Chat.CombinedUserContentShape` | page.tsx:103-104 | the outgoing text begins with exactly the stored user text; it is that text alone exactly when no PDF text is pending, and otherwise the characters right after it are exactly the marker, and the rest is the whole PDF text |
| `Chat.CombinedUserContentInjective` | page.tsx:103-104 | for one user text, different pending PDF texts always give different outgoing texts |
| `Chat.RequestContents` | page.tsx:106-115 | the request has one entry more than the prior transcript; entry i has message i's role and content; the last entry is the outgoing text under the role `"user"` |
| `Chat.SorryTextIsTurnText` | page.tsx:134 | the "sorry" notice is non-empty and trimmed |
| `Chat.ErrorTextIsTurnText` | page.tsx:149 | the error notice is non-empty and trimmed |
| `Chat.ReplyText` | page.tsx:132-134 | the bot text after a response is non-empty and trimmed; it is the trimmed reply when the reply has non-white-space text, otherwise the "sorry" notice |
| `Chat.BotText` | page.tsx:131-151 | the bot text is non-empty and trimmed; it is the error notice on failure and `ReplyText` of the reply on success |
| `Chat.BotMessageId` | page.tsx:136-148 | the id of the bot turn: the clock reading plus one after a response, plus two after a failure |
| `Chat.PairedCycle` | page.tsx:97-151 | a user turn followed by its bot turn keeps an alternating transcript alternating and of even length |
| `Chat.WellFormedAppend` | page.tsx:97 | appending a non-empty trimmed turn keeps every stored turn non-empty and trimmed |
| `ChatSession.Session.constructor` | page.tsx:22-28 | the session starts with no messages, an empty input, no typing flag, no file name and no PDF text |
| `ChatSession.Session.EditInput` | page.tsx:250 | the input becomes the typed text and nothing else changes |
| `ChatSession.Session.BeginSend` | page.tsx:89-115 | a blank input changes nothing and builds no request; otherwise the transcript gains exactly a user turn holding the trimmed input, the input is cleared, the typing flag is set, the PDF text and the file name stay as they were, and the request is `RequestContents` of the prior transcript and the combined outgoing text |
| `ChatSession.Session.CompleteSend` | page.tsx:131-154 | the transcript gains exactly one bot turn holding `BotText(outcome)`, earlier turns are kept, and the typing flag ends false |
| `ChatSession.Session.SendMessage` | page.tsx:88-155 | a send builds a request exactly when the input is not blank; a blank send changes neither the transcript, the input nor the typing flag; otherwise it appends exactly the user turn and its bot turn, clears the input, leaves the typing flag false and returns `RequestContents` of the prior transcript and the combined outgoing text; a paired transcript stays paired |
| `ChatSession.Session.HandleFileUpload` | page.tsx:78-86 | the upload is accepted exactly when a file is present and declares `application/pdf`; an accepted upload records the file's name, a refused one changes nothing |
| `ChatSession.Session.FinishParse` | page.tsx:56-74 | a successful parse replaces the pending PDF text with the extracted text; a failed parse leaves it as it was |
| `ChatSession.Session.ClearChat` | page.tsx:161-165 | the transcript becomes empty, the file name and the PDF text are cleared, the input and the typing flag are untouched, and clearing a cleared session changes nothing |

## Left out

- Loading pdf.js from the CDN and setting its worker (page.tsx:44-52): browser I/O. The `FileReader` and the `getDocument`/`getPage`/`getTextContent` calls (page.tsx:55-65) are foreign library calls. Their result is the `ParseResult` input: pages of text fragments, or a failure.
- The `fetch` call, `JSON.stringify` of the request and `response.json()` (page.tsx:117-131): network I/O; as written the call passes no URL, only the options object. The request body's fixed fields (model name, `generationConfig`) are not modelled; the model returns the `contents` list. The response is the abstract `Outcome`. `Failure` covers everything that reaches the `catch` block, including a reply field that is present, not `null` and not a string (its `trim` call throws); a `null` or missing reply field gives `Success(None)`.
- `Date.now()` (page.tsx:92, 137, 147): the clock readings are parameters (`now`, `later`), and the ids are the reading, the reading plus one, or plus two. The code does not guarantee unique ids (two readings in the same millisecond collide), so no uniqueness is proved.
- Overlapping sends or uploads, and React's batching of state updates: the model assumes each `BeginSend` is followed by its `CompleteSend` before the next send. The transcript captured for the request history is the one at the time of the send, as in the code.
- Colour pickers, rendering, animation, `alert` and `console` output (page.tsx:24-25, 31-42, 69, 72, 84, 167-265): presentation only.
- `handleKeyDown` (page.tsx:157-159): only triggers a send on the Enter key.
- JavaScript strings are UTF-16 code units, while Dafny's are Unicode scalar values. This does not change `trim`, because no white-space character lies outside the Basic Multilingual Plane.

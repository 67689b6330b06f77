/** The pure part of one send: the transcript's turns, the text that goes out
    with the new user turn, the request contents built from the transcript,
    and the choice of the bot's reply text. */
module Chat {
  import opened Wrappers
  import opened JsString

  datatype Sender = User | Bot

  /** One transcript entry. The id is a clock reading in milliseconds. */
  datatype Message = Message(id: int, sender: Sender, content: string)

  /** One entry of the request's `contents`: `{ role, parts: [{ text }] }`. */
  datatype Entry = Entry(role: string, text: string)

  const UserRole: string := "user"
  const ModelRole: string := "model"

  /** The block that introduces pending PDF text in the outgoing turn. */
  const PdfContextMarker: string := "\n\n[Context from uploaded PDF:]\n"

  /** The bot turn for a reply that carries no usable text. */
  const SorryText: string := "\U{1F916} Sorry, I couldn't fetch a response."

  /** The bot turn for a request that failed. */
  const ErrorText: string := "\U{1F916} Error: Failed to fetch response from Gemini API."

  /** How a request ended. `Success` carries the first candidate's first text
      part when the response has one; `Failure` stands for everything that
      lands in the catch block. */
  datatype Outcome = Success(reply: Option<string>) | Failure

  /** Text the transcript can hold: non-empty and with no white space at
      either end. */
  predicate IsTurnText(t: string) {
    t != [] && IsTrimmed(t)
  }

  predicate WellFormedTranscript(ms: seq<Message>) {
    forall i :: 0 <= i < |ms| ==> IsTurnText(ms[i].content)
  }

  /** The transcript of completed send cycles: user and bot turns alternate,
      starting with a user turn, and every user turn has its bot turn. */
  predicate Paired(ms: seq<Message>) {
    && |ms| % 2 == 0
    && forall i :: 0 <= i < |ms| ==> ms[i].sender == (if i % 2 == 0 then User else Bot)
  }

  /** The remote protocol's role for a sender. */
  function RoleOf(s: Sender): (role: string)
    ensures role == UserRole || role == ModelRole
    ensures role == UserRole <==> s == User
  {
    if s == User then UserRole else ModelRole
  }

  function EntryOf(m: Message): Entry {
    Entry(RoleOf(m.sender), m.content)
  }

  /** The transcript sent as history: one entry per message, in order, with
      the message's role and its stored content. */
  function HistoryEntries(ms: seq<Message>): (es: seq<Entry>)
    ensures |es| == |ms|
    ensures forall i :: 0 <= i < |ms| ==> es[i] == EntryOf(ms[i])
  {
    if ms == [] then [] else [EntryOf(ms[0])] + HistoryEntries(ms[1..])
  }

  /** The history of a longer transcript extends the history of a shorter
      one: appending turns never rewrites what an earlier request sent. */
  lemma HistoryAppend(a: seq<Message>, b: seq<Message>)
    ensures HistoryEntries(a + b) == HistoryEntries(a) + HistoryEntries(b)
  {
  }

  /** The text sent for the new user turn: the trimmed input, then the PDF
      context block when PDF text is pending. */
  function CombinedUserContent(text: string, pdfText: string): string {
    text + (if pdfText != "" then PdfContextMarker + pdfText else "")
  }

  /** The outgoing text starts with exactly the stored user text; it is that
      text alone precisely when no PDF text is pending, and otherwise the rest
      is the marker followed by the whole PDF text. */
  lemma CombinedUserContentShape(text: string, pdfText: string)
    ensures |CombinedUserContent(text, pdfText)| >= |text|
    ensures CombinedUserContent(text, pdfText)[..|text|] == text
    ensures CombinedUserContent(text, pdfText) == text <==> pdfText == ""
    ensures pdfText != "" ==>
      CombinedUserContent(text, pdfText)[|text|..|text| + |PdfContextMarker|] == PdfContextMarker
    ensures pdfText != "" ==>
      CombinedUserContent(text, pdfText)[|text| + |PdfContextMarker|..] == pdfText
  {
  }

  /** For one user text, different pending PDF texts always give different
      outgoing texts: the request carries the PDF context unaltered. */
  lemma CombinedUserContentInjective(text: string, pdf1: string, pdf2: string)
    requires CombinedUserContent(text, pdf1) == CombinedUserContent(text, pdf2)
    ensures pdf1 == pdf2
  {
    CombinedUserContentShape(text, pdf1);
    CombinedUserContentShape(text, pdf2);
  }

  /** The request contents: the whole prior transcript, then the outgoing
      text as a final user entry. */
  function RequestContents(prior: seq<Message>, outgoing: string): (es: seq<Entry>)
    ensures |es| == |prior| + 1
    ensures forall i :: 0 <= i < |prior| ==>
      es[i].role == RoleOf(prior[i].sender) && es[i].text == prior[i].content
    ensures es[|prior|] == Entry(UserRole, outgoing)
  {
    HistoryEntries(prior) + [Entry(UserRole, outgoing)]
  }

  lemma SorryTextIsTurnText()
    ensures IsTurnText(SorryText)
  {
  }

  lemma ErrorTextIsTurnText()
    ensures IsTurnText(ErrorText)
  {
    var head := "\U{1F916} Error: Failed ";
    var tail := "to fetch response from Gemini API.";
    assert ErrorText == head + tail;
    assert ErrorText[0] == head[0];
    assert ErrorText[|ErrorText| - 1] == tail[|tail| - 1];
  }

  /** The bot text for a successful response: the reply trimmed, or the sorry
      notice when there is no reply or it is only white space. */
  function ReplyText(reply: Option<string>): (t: string)
    ensures IsTurnText(t)
    ensures reply.Some? && !AllWhitespace(reply.value) ==> t == Trim(reply.value)
    ensures reply.None? || AllWhitespace(reply.value) ==> t == SorryText
  {
    SorryTextIsTurnText();
    if reply.Some? && Trim(reply.value) != "" then Trim(reply.value) else SorryText
  }

  /** The bot text appended when a request ends: always turn text, the error
      notice on failure and the reply text on success. */
  function BotText(outcome: Outcome): (t: string)
    ensures IsTurnText(t)
    ensures outcome.Failure? ==> t == ErrorText
    ensures outcome.Success? ==> t == ReplyText(outcome.reply)
  {
    ErrorTextIsTurnText();
    match outcome
    case Success(reply) => ReplyText(reply)
    case Failure => ErrorText
  }

  /** The id of the bot message: the clock reading plus one after a response,
      plus two after a failure. */
  function BotMessageId(outcome: Outcome, now: int): int {
    if outcome.Success? then now + 1 else now + 2
  }

  /** A completed cycle (a user turn, then its bot turn) keeps the transcript
      paired and therefore of even length. */
  lemma PairedCycle(ms: seq<Message>, u: Message, b: Message)
    requires Paired(ms)
    requires u.sender == User && b.sender == Bot
    ensures Paired(ms + [u, b])
    ensures |ms + [u, b]| % 2 == 0
  {
  }

  /** Appending well-formed turns keeps a well-formed transcript. */
  lemma WellFormedAppend(ms: seq<Message>, m: Message)
    requires WellFormedTranscript(ms) && IsTurnText(m.content)
    ensures WellFormedTranscript(ms + [m])
  {
  }
}

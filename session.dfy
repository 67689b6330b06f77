/** The chat component's session state and the operations that change it:
    editing the input, the two halves of a send (before and after the network
    call), accepting an upload, storing the parsed PDF text, and clearing the
    chat. Every state variable of the component that the logic touches is a
    field; the colour pickers are not modelled. */
module ChatSession {
  import opened Wrappers
  import opened JsString
  import opened Chat
  import PdfExtract

  /** The only media type an upload may declare. */
  const PdfMediaType: string := "application/pdf"

  /** The first file of the file input: its name and declared media type. */
  datatype UploadedFile = UploadedFile(name: string, mediaType: string)

  /** What the PDF library delivers once the file is read: the text items of
      every page, or a failure somewhere in loading or reading the pages. */
  datatype ParseResult = Parsed(pages: seq<seq<string>>) | ParseFailed

  class Session {
    var messages: seq<Message>
    var input: string
    var isTyping: bool
    var uploadedFileName: Option<string>
    var parsedPdfText: string

    /** Every stored turn is non-empty trimmed text, and the pending PDF text
        is trimmed. */
    ghost predicate Valid()
      reads this
    {
      WellFormedTranscript(messages) && IsTrimmed(parsedPdfText)
    }

    /** The initial state of the component's state variables. */
    constructor ()
      ensures Valid()
      ensures messages == [] && input == "" && !isTyping
      ensures uploadedFileName == None && parsedPdfText == ""
    {
      messages := [];
      input := "";
      isTyping := false;
      uploadedFileName := None;
      parsedPdfText := "";
    }

    /** The input box's change handler. */
    method EditInput(text: string)
      requires Valid()
      modifies this`input
      ensures Valid()
      ensures input == text
    {
      input := text;
    }

    /** The part of a send that runs before the network call. A blank input
        is a no-op and builds no request. Otherwise the trimmed input becomes
        a user turn, the input is cleared, the typing flag is raised, and the
        request contents are returned: the prior transcript followed by the
        outgoing text, which carries the pending PDF text if there is any.
        The pending PDF text itself stays as it was. */
    method BeginSend(now: int) returns (request: Option<seq<Entry>>)
      requires Valid()
      modifies this`messages, this`input, this`isTyping
      ensures Valid()
      ensures AllWhitespace(old(input)) ==>
        && request == None
        && messages == old(messages) && input == old(input) && isTyping == old(isTyping)
      ensures !AllWhitespace(old(input)) ==>
        && messages == old(messages) + [Message(now, User, Trim(old(input)))]
        && input == "" && isTyping
        && request == Some(RequestContents(old(messages),
                                           CombinedUserContent(Trim(old(input)), parsedPdfText)))
    {
      var text := Trim(input);
      if text == "" {
        return None;
      }
      var prior := messages;
      WellFormedAppend(messages, Message(now, User, text));
      messages := messages + [Message(now, User, text)];
      input := "";
      isTyping := true;
      var combined := CombinedUserContent(text, parsedPdfText);
      request := Some(RequestContents(prior, combined));
    }

    /** The part of a send that runs when the network call has ended: exactly
        one bot turn is appended, and the typing flag drops. */
    method CompleteSend(outcome: Outcome, now: int)
      requires Valid()
      modifies this`messages, this`isTyping
      ensures Valid()
      ensures messages == old(messages) + [Message(BotMessageId(outcome, now), Bot, BotText(outcome))]
      ensures !isTyping
    {
      var reply := Message(BotMessageId(outcome, now), Bot, BotText(outcome));
      WellFormedAppend(messages, reply);
      messages := messages + [reply];
      isTyping := false;
    }

    /** A whole send, with the network's answer given as `outcome` and the
        clock readings before and after the call as `now` and `later`. A cycle
        that builds a request adds exactly a user turn and its bot turn, so a
        paired transcript stays paired. */
    method SendMessage(now: int, outcome: Outcome, later: int) returns (request: Option<seq<Entry>>)
      requires Valid()
      modifies this`messages, this`input, this`isTyping
      ensures Valid()
      ensures request.None? <==> AllWhitespace(old(input))
      ensures request.None? ==>
        messages == old(messages) && input == old(input) && isTyping == old(isTyping)
      ensures request.Some? ==>
        && messages == old(messages) + [Message(now, User, Trim(old(input))),
                                        Message(BotMessageId(outcome, later), Bot, BotText(outcome))]
        && input == "" && !isTyping
        && request == Some(RequestContents(old(messages),
                                           CombinedUserContent(Trim(old(input)), parsedPdfText)))
      ensures old(Paired(messages)) ==> Paired(messages)
    {
      request := BeginSend(now);
      if request.Some? {
        CompleteSend(outcome, later);
        if old(Paired(messages)) {
          PairedCycle(old(messages), Message(now, User, Trim(old(input))),
                      Message(BotMessageId(outcome, later), Bot, BotText(outcome)));
        }
      }
    }

    /** The file input's change handler: a missing file or one that does not
        declare the PDF media type is refused and changes nothing; a PDF file
        records its name, and its parse is then started (see FinishParse). */
    method HandleFileUpload(file: Option<UploadedFile>) returns (accepted: bool)
      requires Valid()
      modifies this`uploadedFileName
      ensures Valid()
      ensures accepted <==> file.Some? && file.value.mediaType == PdfMediaType
      ensures accepted ==> uploadedFileName == Some(file.value.name)
      ensures !accepted ==> uploadedFileName == old(uploadedFileName)
    {
      accepted := file.Some? && file.value.mediaType == PdfMediaType;
      if accepted {
        uploadedFileName := Some(file.value.name);
      }
    }

    /** The end of a PDF parse: the extracted text replaces whatever text was
        pending before; a failed parse leaves the pending text as it was. */
    method FinishParse(result: ParseResult)
      requires Valid()
      modifies this`parsedPdfText
      ensures Valid()
      ensures result.Parsed? ==> parsedPdfText == PdfExtract.ExtractedText(result.pages)
      ensures result.ParseFailed? ==> parsedPdfText == old(parsedPdfText)
    {
      match result
      case Parsed(pages) =>
        parsedPdfText := PdfExtract.AssembleText(pages);
      case ParseFailed =>
    }

    /** Clearing the chat empties the transcript, forgets the file name and
        the pending PDF text; the input and the typing flag are untouched, and
        clearing again changes nothing more. */
    method ClearChat()
      requires Valid()
      modifies this`messages, this`uploadedFileName, this`parsedPdfText
      ensures Valid()
      ensures messages == [] && uploadedFileName == None && parsedPdfText == ""
      ensures old(messages) == [] && old(uploadedFileName) == None && old(parsedPdfText) == "" ==>
        unchanged(this)
    {
      messages := [];
      uploadedFileName := None;
      parsedPdfText := "";
    }
  }
}

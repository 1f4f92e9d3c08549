/** The chat and reading-list controller (App.tsx): the transcript, the
    reading list, the loading flag and the error shown to the user. A send is
    one atomic step; the service it calls is a parameter. */
module App {
  import opened Types
  import opened Constants
  import opened GeminiService
  import opened GeminiServiceProperties
  import opened Json

  const NotSureReply: string := "I'm not sure what to say about that."
  const UnknownError: string := "An unknown error occurred."
  const ErrorReplyPrefix: string := "Sorry, I encountered an error: "

  function UserMessage(text: string): ChatMessage {
    ChatMessage(User, Some(text), None)
  }

  function BotText(text: string): ChatMessage {
    ChatMessage(Bot, Some(text), None)
  }

  /** A message the transcript can show: it has text or recommendations. */
  predicate Displayable(m: ChatMessage) {
    (m.text.Some? && m.text.value != "") || (m.recommendations.Some? && |m.recommendations.value| > 0)
  }

  /** `result.recommendations && result.recommendations.length > 0`. */
  predicate HasRecommendations(result: GeminiServiceResponse): (r: bool)
    ensures r <==> exists rec :: result.recommendations.Some? && rec in result.recommendations.value
  {
    if result.recommendations.Some? && |result.recommendations.value| > 0 then
      assert result.recommendations.value[0] in result.recommendations.value;
      true
    else false
  }

  /** `err instanceof Error ? err.message : <unknown error>`. */
  function ErrorMessage(thrown: Thrown): (r: string)
    ensures thrown.ErrorObject? ==> r == thrown.message
    ensures thrown.NonError? ==> r == UnknownError
  {
    match thrown
    case ErrorObject(message) => message
    case NonError => UnknownError
  }

  /** The bot message that answers a settled service call. */
  function BotReply(outcome: ServiceOutcome): (m: ChatMessage)
    ensures m.role == Bot && Displayable(m)
    ensures outcome.Resolved? && HasRecommendations(outcome.response) ==>
              m.recommendations == outcome.response.recommendations && m.text.None?
    ensures outcome.Resolved? && !HasRecommendations(outcome.response) ==>
              m.recommendations.None? &&
              (if ReplyPresent(outcome.response.text)
               then m.text == outcome.response.text else m.text == Some(NotSureReply))
    ensures outcome.Threw? ==> m == BotText(ErrorReplyPrefix + ErrorMessage(outcome.thrown))
  {
    match outcome
    case Resolved(result) =>
      if HasRecommendations(result) then ChatMessage(Bot, None, result.recommendations)
      else BotText(if ReplyPresent(result.text) then result.text.value else NotSureReply)
    case Threw(thrown) => BotText(ErrorReplyPrefix + ErrorMessage(thrown))
  }

  /** The controller's state. */
  datatype ChatState = ChatState(
    messages: seq<ChatMessage>,
    recommendedBooks: seq<RecommendationResponse>,
    isLoading: bool,
    error: Option<string>)

  /** The state after sending `text`: the user message and one bot reply are
      appended, recommendations join the end of the reading list, an error
      is recorded only when the service throws, and loading is over. */
  function Send(s: ChatState, text: string, service: seq<ChatMessage> -> ServiceOutcome): (r: ChatState)
    ensures |r.messages| == |s.messages| + 2
    ensures r.messages[..|s.messages|] == s.messages
    ensures r.messages[|s.messages|] == UserMessage(text)
    ensures r.messages[|s.messages| + 1] == BotReply(service(s.messages + [UserMessage(text)]))
    ensures !r.isLoading
    ensures var outcome := service(s.messages + [UserMessage(text)]);
            && (r.error.Some? <==> outcome.Threw?)
            && (outcome.Threw? ==> r.error == Some(ErrorMessage(outcome.thrown)))
            && (if outcome.Resolved? && HasRecommendations(outcome.response)
                then r.recommendedBooks == s.recommendedBooks + outcome.response.recommendations.value
                else r.recommendedBooks == s.recommendedBooks)
  {
    var newMessages := s.messages + [UserMessage(text)];
    var outcome := service(newMessages);
    var books :=
      if outcome.Resolved? && HasRecommendations(outcome.response)
      then s.recommendedBooks + outcome.response.recommendations.value
      else s.recommendedBooks;
    var error := if outcome.Threw? then Some(ErrorMessage(outcome.thrown)) else None;
    ChatState(newMessages + [BotReply(outcome)], books, false, error)
  }

  // ---------------------------------------------------------------------
  // Bookmarks

  /** One entry with its bookmark flipped; an absent flag counts as false. */
  function Flipped(book: RecommendationResponse): (r: RecommendationResponse)
    ensures r.Bookmarked() == !book.Bookmarked() && r.isBookmarked == Some(r.Bookmarked())
    ensures r.details == book.details && r.justification == book.justification && r.sources == book.sources
  {
    book.(isBookmarked := Some(!book.Bookmarked()))
  }

  /** Flips the bookmark of every entry with the given title. */
  function ToggleBookmark(books: seq<RecommendationResponse>, title: string): (r: seq<RecommendationResponse>)
    ensures |r| == |books|
    ensures forall i :: 0 <= i < |books| && books[i].details.title == title ==> r[i] == Flipped(books[i])
    ensures forall i :: 0 <= i < |books| && books[i].details.title != title ==> r[i] == books[i]
  {
    seq(|books|, i requires 0 <= i < |books| =>
      if books[i].details.title == title then Flipped(books[i]) else books[i])
  }

  /** Toggling a title twice restores every entry's truth value and changes
      nothing else; an absent flag comes back as an explicit false. */
  lemma ToggleTwice(books: seq<RecommendationResponse>, title: string)
    ensures var r := ToggleBookmark(ToggleBookmark(books, title), title);
            |r| == |books|
            && forall i :: 0 <= i < |books| ==>
                 r[i].Bookmarked() == books[i].Bookmarked()
                 && r[i].details == books[i].details && r[i].justification == books[i].justification
                 && r[i].sources == books[i].sources
                 && (books[i].details.title != title || books[i].isBookmarked.Some? ==> r[i] == books[i])
  {
    var once := ToggleBookmark(books, title);
    var twice := ToggleBookmark(once, title);
    forall i | 0 <= i < |books|
      ensures twice[i].Bookmarked() == books[i].Bookmarked()
      ensures books[i].details.title != title || books[i].isBookmarked.Some? ==> twice[i] == books[i]
    {
      if books[i].details.title == title {
        assert once[i] == Flipped(books[i]);
        assert twice[i] == Flipped(once[i]);
        assert twice[i] == books[i].(isBookmarked := Some(books[i].Bookmarked()));
        if books[i].isBookmarked.Some? {
          var b := books[i].isBookmarked.value;
          assert books[i].isBookmarked == Some(b);
          assert books[i].Bookmarked() == b;
        }
      }
    }
  }

  // ---------------------------------------------------------------------
  // Start-up

  /** The reading list at start-up from the stored text (absent when nothing
      is stored or the store cannot be read) and a decoder standing for
      `JSON.parse`, which answers `None` when it throws. Nothing stored, an
      empty string or a failed parse all give the empty list. */
  function InitialReadingList(saved: Option<string>, decode: string -> Option<seq<RecommendationResponse>>):
    (r: seq<RecommendationResponse>)
    ensures saved.None? || saved.value == "" ==> r == []
    ensures saved.Some? && saved.value != "" && decode(saved.value).None? ==> r == []
    ensures saved.Some? && saved.value != "" && decode(saved.value).Some? ==> r == decode(saved.value).value
  {
    if saved.Some? && saved.value != "" then
      match decode(saved.value)
      case Some(books) => books
      case None => []
    else []
  }

  /** When the decoder inverts the encoder (and the encoder never writes an
      empty string, as `JSON.stringify` of a list does not), a stored list is
      reloaded unchanged. */
  lemma ReloadRoundTrip(books: seq<RecommendationResponse>,
                        encode: seq<RecommendationResponse> -> string,
                        decode: string -> Option<seq<RecommendationResponse>>)
    requires forall b :: encode(b) != "" && decode(encode(b)) == Some(b)
    ensures InitialReadingList(Some(encode(books)), decode) == books
  {
  }

  // ---------------------------------------------------------------------
  // Sends through the recommendation service

  /** With the real service, a failure is the fixed communication message. */
  lemma GeminiFailureMessage(s: ChatState, text: string, api: seq<Content> -> ApiReply, parse: string -> Option<Json>)
    ensures var r := Send(s, text, h => GetBookRecommendation(h, api, parse));
            r.error.Some? ==> r.error == Some(CommunicationFailure)
                              && r.messages[|s.messages| + 1].text == Some(ErrorReplyPrefix + CommunicationFailure)
  {
  }

  /** An empty `recommendations` array from the service reaches the
      transcript as the "not sure" text, and the reading list stays as it
      was. */
  lemma EmptyArrayShowsNotSure(s: ChatState, text: string, api: seq<Content> -> ApiReply, parse: string -> Option<Json>)
    requires var reply := api(ToContents(s.messages + [UserMessage(text)]));
             reply.Replied? && reply.text.Some? && reply.text.value != ""
             && RecommendationItems(reply.text.value, parse) == Some([])
    ensures var r := Send(s, text, h => GetBookRecommendation(h, api, parse));
            r.messages[|s.messages| + 1] == BotText(NotSureReply)
            && r.recommendedBooks == s.recommendedBooks && r.error.None?
  {
    var reply := api(ToContents(s.messages + [UserMessage(text)]));
    EmptyArrayGivesNoRecommendations(reply.text.value, reply.groundingChunks, parse);
  }

  // ---------------------------------------------------------------------
  // The component's state

  class CuratorApp {
    var messages: seq<ChatMessage>
    var recommendedBooks: seq<RecommendationResponse>
    var isLoading: bool
    var error: Option<string>

    function State(): ChatState
      reads this
    {
      ChatState(messages, recommendedBooks, isLoading, error)
    }

    /** Between sends nothing is loading and every bot message can be
        shown. */
    ghost predicate Valid()
      reads this
    {
      !isLoading && forall i :: 0 <= i < |messages| && messages[i].role == Bot ==> Displayable(messages[i])
    }

    constructor (saved: Option<string>, decode: string -> Option<seq<RecommendationResponse>>)
      ensures Valid()
      ensures messages == [InitialChatMessage]
      ensures recommendedBooks == InitialReadingList(saved, decode)
      ensures !isLoading && error.None?
    {
      messages := [InitialChatMessage];
      recommendedBooks := InitialReadingList(saved, decode);
      isLoading := false;
      error := None;
    }

    method HandleSendMessage(text: string, service: seq<ChatMessage> -> ServiceOutcome)
      requires Valid()
      modifies this
      ensures Valid()
      ensures State() == Send(old(State()), text, service)
    {
      var newUserMessage := UserMessage(text);
      var newMessages := messages + [newUserMessage];
      messages := newMessages;
      isLoading := true;
      error := None;

      var outcome := service(newMessages);
      match outcome {
        case Resolved(result) =>
          var newBotMessages: seq<ChatMessage> := [];
          if HasRecommendations(result) {
            newBotMessages := newBotMessages + [ChatMessage(Bot, None, result.recommendations)];
            recommendedBooks := recommendedBooks + result.recommendations.value;
          } else {
            var reply := if ReplyPresent(result.text) then result.text.value else NotSureReply;
            newBotMessages := newBotMessages + [BotText(reply)];
          }
          messages := messages + newBotMessages;
        case Threw(thrown) =>
          var errorMessage := ErrorMessage(thrown);
          error := Some(errorMessage);
          messages := messages + [BotText(ErrorReplyPrefix + errorMessage)];
      }
      isLoading := false;
    }

    method HandleToggleBookmark(title: string)
      requires Valid()
      modifies this
      ensures Valid()
      ensures recommendedBooks == ToggleBookmark(old(recommendedBooks), title)
      ensures messages == old(messages) && isLoading == old(isLoading) && error == old(error)
    {
      recommendedBooks := ToggleBookmark(recommendedBooks, title);
    }
  }
}

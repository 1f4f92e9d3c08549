/** The recommendation client (services/geminiService.ts): it turns the chat
    history into API turns, calls the generative-language API, and
    interprets the reply either as plain text or as structured
    recommendations. The API call and `JSON.parse` are parameters. */
module GeminiService {
  import opened Types
  import opened Json
  import opened StringOps

  // ---------------------------------------------------------------------
  // The API's view of a conversation and of its reply

  datatype ContentRole = UserTurn | ModelTurn
  datatype Part = Part(text: Option<string>)
  /** One turn sent to the API. */
  datatype Content = Content(role: ContentRole, parts: seq<Part>)

  /** A grounding chunk of the reply's metadata; only web chunks matter. */
  datatype GroundingChunk = GroundingChunk(web: Option<GroundingChunkWeb>)

  /** How the API call ends: it fails (network, authorisation, service), or
      it returns the reply text (possibly absent) and the grounding chunks
      of its first candidate (absent when there is no metadata). */
  datatype ApiReply =
    | CallFailed
    | Replied(text: Option<string>, groundingChunks: Option<seq<GroundingChunk>>)

  const SummaryPrefix: string := "I have found these books for you: "
  const SummarySuffix: string := ". Do not recommend these again."
  const NoDetailReply: string :=
    "An intriguing query. To find the perfect volume, I require a bit more detail. What other genres or themes have captured your imagination recently?"
  const CommunicationFailure: string :=
    "Failed to communicate with the Curator's mind. Please try again."

  // ---------------------------------------------------------------------
  // History shaping

  function Quoted(t: string): string {
    "\"" + t + "\""
  }

  /** The titles of `recs`, each wrapped in double quotes, in order. */
  function QuotedTitles(recs: seq<RecommendationResponse>): (r: seq<string>)
    ensures |r| == |recs|
    ensures forall i :: 0 <= i < |recs| ==> r[i] == Quoted(recs[i].details.title)
  {
    seq(|recs|, i requires 0 <= i < |recs| => Quoted(recs[i].details.title))
  }

  /** The synthetic model turn that stands for a bot message that carried
      recommendations. */
  function RecommendationSummary(recs: seq<RecommendationResponse>): (r: string)
    ensures SummaryPrefix <= r
    ensures |SummarySuffix| <= |r| && r[|r| - |SummarySuffix|..] == SummarySuffix
    ensures recs != [] ==> SummaryPrefix + Quoted(recs[0].details.title) <= r
  {
    SummaryPrefix + Join(QuotedTitles(recs), ", ") + SummarySuffix
  }

  function ToContent(msg: ChatMessage): (c: Content)
    ensures |c.parts| == 1
    ensures c.role == UserTurn <==> msg.role == User
    ensures msg.role == User ==> c.parts[0].text == msg.text
    ensures msg.role == Bot && msg.recommendations.Some? && |msg.recommendations.value| > 0 ==>
              c.parts[0].text == Some(RecommendationSummary(msg.recommendations.value))
    ensures msg.role == Bot && (msg.recommendations.None? || msg.recommendations.value == []) ==>
              c.parts[0].text == msg.text
  {
    if msg.role == User then Content(UserTurn, [Part(msg.text)])
    else if msg.recommendations.Some? && |msg.recommendations.value| > 0 then
      Content(ModelTurn, [Part(Some(RecommendationSummary(msg.recommendations.value)))])
    else Content(ModelTurn, [Part(msg.text)])
  }

  /** The turns sent to the API: one per message, in history order. */
  function ToContents(messages: seq<ChatMessage>): (r: seq<Content>)
    ensures |r| == |messages|
    ensures forall i :: 0 <= i < |messages| ==> r[i] == ToContent(messages[i])
  {
    seq(|messages|, i requires 0 <= i < |messages| => ToContent(messages[i]))
  }

  /** Each message becomes one turn of one part: a user message a user turn
      with exactly its text, a bot message a model turn that carries either
      the summary of its recommendations or, when it has none, its text. */
  lemma ContentsShape(messages: seq<ChatMessage>, i: nat)
    requires i < |messages|
    ensures |ToContents(messages)| == |messages|
    ensures |ToContents(messages)[i].parts| == 1
    ensures ToContents(messages)[i].role == UserTurn <==> messages[i].role == User
    ensures messages[i].role == User ==> ToContents(messages)[i].parts[0].text == messages[i].text
    ensures messages[i].role == Bot && messages[i].recommendations.Some?
            && |messages[i].recommendations.value| > 0 ==>
              ToContents(messages)[i].parts[0].text
                == Some(SummaryPrefix + Join(QuotedTitles(messages[i].recommendations.value), ", ") + SummarySuffix)
    ensures messages[i].role == Bot && (messages[i].recommendations.None?
            || messages[i].recommendations.value == []) ==>
              ToContents(messages)[i].parts[0].text == messages[i].text
  {
  }

  /** The summary names every recommended title in double quotes, after the
      fixed prefix and before the fixed suffix. */
  lemma SummaryMentionsEveryTitle(recs: seq<RecommendationResponse>, k: nat)
    requires k < |recs|
    ensures exists at :: |SummaryPrefix| <= at
                         && at + |Quoted(recs[k].details.title)| <= |RecommendationSummary(recs)| - |SummarySuffix|
                         && OccursAt(Quoted(recs[k].details.title), RecommendationSummary(recs), at)
  {
    var titles := QuotedTitles(recs);
    var joined := Join(titles, ", ");
    JoinContains(titles, ", ", k);
    var at :| OccursAt(titles[k], joined, at);
    OccursInContext(titles[k], joined, at, SummaryPrefix, SummarySuffix);
    var summary := RecommendationSummary(recs);
    assert summary == SummaryPrefix + joined + SummarySuffix;
    var w := |SummaryPrefix| + at;
    assert |SummaryPrefix| <= w && w + |titles[k]| <= |summary| - |SummarySuffix|;
    assert titles[k] == Quoted(recs[k].details.title);
    assert OccursAt(Quoted(recs[k].details.title), summary, w);
  }

  // ---------------------------------------------------------------------
  // Locating the embedded JSON object

  /** `span` sits at `st` in `reply`, runs from a `{` to a `}`, no `{` comes
      before it and no `}` after it. */
  ghost predicate OutermostBraces(reply: string, st: int, span: string) {
    && 0 <= st && st + |span| <= |reply| && reply[st..st + |span|] == span
    && |span| >= 2 && span[0] == '{' && span[|span| - 1] == '}'
    && (forall k :: 0 <= k < st ==> reply[k] != '{')
    && (forall k :: st + |span| <= k < |reply| ==> reply[k] != '}')
  }

  /** From the first `{` to the last `}` of the reply, or nothing when either
      is missing or the last `}` comes before the first `{`. */
  function JsonSpan(reply: string): (r: Option<string>)
    ensures r.None? <==> '{' !in reply || '}' !in reply
                         || LastIndexOf(reply, '}') < IndexOf(reply, '{')
    ensures r.Some? ==> exists st :: OutermostBraces(reply, st, r.value)
  {
    var jsonStart := IndexOf(reply, '{');
    var jsonEnd := LastIndexOf(reply, '}');
    if jsonStart == -1 || jsonEnd == -1 || jsonEnd < jsonStart then None
    else
      var span := reply[jsonStart..jsonEnd + 1];
      assert OutermostBraces(reply, jsonStart, span);
      Some(span)
  }

  /** "The last `}` comes before the first `{`" means every `}` precedes every
      `{`: the extraction finds nothing exactly when no `{` is followed by a
      `}`. */
  lemma {:induction false} NoSpanIffNoBracePair(reply: string)
    ensures JsonSpan(reply).None? <==>
            forall i, j :: 0 <= i < j < |reply| && reply[i] == '{' ==> reply[j] != '}'
  {
    var a := IndexOf(reply, '{');
    var b := LastIndexOf(reply, '}');
    if JsonSpan(reply).None? {
      forall i, j | 0 <= i < j < |reply| && reply[i] == '{'
        ensures reply[j] != '}'
      {
      }
    } else {
      assert reply[a] == '{' && reply[b] == '}' && a < b;
    }
  }

  // ---------------------------------------------------------------------
  // Normalising parsed recommendations

  /** Web citations of the chunks that have one, in chunk order. */
  function Webs(chunks: seq<GroundingChunk>): (r: seq<GroundingChunkWeb>)
    ensures |r| <= |chunks|
    ensures forall w :: w in r ==> GroundingChunk(Some(w)) in chunks
  {
    if chunks == [] then []
    else
      var rest := Webs(chunks[1..]);
      match chunks[0].web
      case Some(w) => [w] + rest
      case None => rest
  }

  /** The citations attached to every recommendation of one reply: the web
      citations of its grounding chunks, at most the first three, and none
      when there is no metadata. */
  function Sources(chunks: Option<seq<GroundingChunk>>): (r: seq<GroundingChunkWeb>)
    ensures |r| <= 3
    ensures chunks.None? ==> r == []
    ensures chunks.Some? ==> r <= Webs(chunks.value)
    ensures chunks.Some? && |Webs(chunks.value)| <= 3 ==> r == Webs(chunks.value)
    ensures chunks.Some? && |Webs(chunks.value)| > 3 ==> r == Webs(chunks.value)[..3]
    ensures forall w :: w in r ==> chunks.Some? && GroundingChunk(Some(w)) in chunks.value
  {
    match chunks
    case None => []
    case Some(cs) =>
      var webs := Webs(cs);
      if |webs| <= 3 then webs else webs[..3]
  }

  /** The string a field holds, or "" when it is missing or not a string. */
  function StringField(rec: Json, key: string): (r: string)
    requires !rec.JNull?
    ensures forall t :: HoldsString(rec, key, t) ==> r == t
    ensures !(Property(rec, key).Some? && Property(rec, key).value.JString?) ==> r == ""
  {
    match Property(rec, key)
    case Some(JString(s)) => s
    case _ => ""
  }

  /** A field holds the string `s`. */
  predicate HoldsString(rec: Json, key: string, s: string)
    requires !rec.JNull?
  {
    Property(rec, key) == Some(JString(s))
  }

  function AsString(v: Json): string {
    if v.JString? then v.s else ""
  }

  function KeywordsField(rec: Json): (r: seq<string>)
    requires !rec.JNull?
    ensures Property(rec, "keywords").Some? && Property(rec, "keywords").value.JArray? ==>
              var items := Property(rec, "keywords").value.items;
              |r| == |items| && forall i :: 0 <= i < |items| && items[i].JString? ==> r[i] == items[i].s
    ensures (Property(rec, "keywords").None? || !Property(rec, "keywords").value.JArray?) ==> r == []
  {
    match Property(rec, "keywords")
    case Some(JArray(items)) => seq(|items|, i requires 0 <= i < |items| => AsString(items[i]))
    case _ => []
  }

  function SimilarBookOf(v: Json): SimilarBook {
    if v.JObject? then SimilarBook(StringField(v, "title"), StringField(v, "author"))
    else SimilarBook("", "")
  }

  function SimilarBookList(items: seq<Json>): (r: seq<SimilarBook>)
    ensures |r| == |items|
    ensures forall i :: 0 <= i < |items| ==> r[i] == SimilarBookOf(items[i])
  {
    if items == [] then [] else [SimilarBookOf(items[0])] + SimilarBookList(items[1..])
  }

  /** `rec.similar_books || []`. */
  function SimilarBooksField(rec: Json): (r: seq<SimilarBook>)
    requires !rec.JNull?
    ensures (Property(rec, "similar_books").None? || !Truthy(Property(rec, "similar_books").value)) ==> r == []
    ensures Property(rec, "similar_books").Some? && Property(rec, "similar_books").value.JArray? ==>
              var items := Property(rec, "similar_books").value.items;
              |r| == |items| && forall i :: 0 <= i < |items| ==> r[i] == SimilarBookOf(items[i])
  {
    var similar := Property(rec, "similar_books");
    if similar.Some? && Truthy(similar.value) then
      match similar.value
      case JArray(items) => SimilarBookList(items)
      case _ => []
    else []
  }

  /** One parsed entry reshaped into a recommendation carrying `sources`. */
  function Normalise(rec: Json, sources: seq<GroundingChunkWeb>): (r: RecommendationResponse)
    requires !rec.JNull?
    ensures r.details.title == StringField(rec, "title") && r.details.author == StringField(rec, "author")
    ensures r.details.genre == StringField(rec, "genre") && r.details.pitch == StringField(rec, "pitch")
    ensures r.details.keywords == KeywordsField(rec) && r.justification == StringField(rec, "justification")
    ensures r.details.similarBooks == Some(SimilarBooksField(rec))
    ensures r.sources == Some(sources) && r.isBookmarked.None?
  {
    RecommendationResponse(
      RecommendationDetails(
        StringField(rec, "title"),
        StringField(rec, "author"),
        StringField(rec, "genre"),
        KeywordsField(rec),
        StringField(rec, "pitch"),
        Some(SimilarBooksField(rec))),
      StringField(rec, "justification"),
      Some(sources),
      None)
  }

  /** `recommendationsArg.map(...)`: reading a field of a `null` entry throws,
      which fails the whole reshaping. */
  function NormaliseAll(items: seq<Json>, sources: seq<GroundingChunkWeb>): (r: Option<seq<RecommendationResponse>>)
    ensures r.None? <==> JNull in items
    ensures r.Some? ==> |r.value| == |items|
    ensures r.Some? ==> forall i :: 0 <= i < |items| ==> r.value[i] == Normalise(items[i], sources)
  {
    if JNull in items then None
    else Some(seq(|items|, i requires 0 <= i < |items| => Normalise(items[i], sources)))
  }

  // ---------------------------------------------------------------------
  // Interpreting the reply

  function TextResponse(t: string): GeminiServiceResponse {
    GeminiServiceResponse(Some(t), None)
  }

  /** `response.text` is truthy. */
  predicate ReplyPresent(text: Option<string>) {
    text.Some? && text.value != ""
  }

  /** `{ text: response.text || <no-detail reply> }`. */
  function FinalReply(text: Option<string>): (r: GeminiServiceResponse)
    ensures r.recommendations.None? && r.text.Some? && r.text.value != ""
    ensures ReplyPresent(text) ==> r.text == text
    ensures !ReplyPresent(text) ==> r.text == Some(NoDetailReply)
  {
    TextResponse(if ReplyPresent(text) then text.value else NoDetailReply)
  }

  /** The entries of the `recommendations` array of the reply's embedded
      JSON object, when the reply has one that parses to a value other than
      `null` and whose `recommendations` field is an array. */
  function RecommendationItems(t: string, parse: string -> Option<Json>): (r: Option<seq<Json>>)
    ensures r.Some? <==>
              JsonSpan(t).Some? && parse(JsonSpan(t).value).Some?
              && parse(JsonSpan(t).value).value.JObject?
              && Lookup(parse(JsonSpan(t).value).value.members, "recommendations").Some?
              && Lookup(parse(JsonSpan(t).value).value.members, "recommendations").value.JArray?
    ensures r.Some? ==>
              r.value == Lookup(parse(JsonSpan(t).value).value.members, "recommendations").value.items
  {
    match JsonSpan(t)
    case None => None
    case Some(span) =>
      match parse(span)
      case None => None
      case Some(parsed) =>
        if parsed.JNull? then None
        else match Property(parsed, "recommendations")
          case Some(JArray(items)) => Some(items)
          case _ => None
  }

  /** The reply interpreted: structured recommendations when the reply
      embeds an object with a `recommendations` array, its own text
      otherwise, and a fixed prompt for more detail when it is empty. */
  function Interpret(text: Option<string>, chunks: Option<seq<GroundingChunk>>,
                     parse: string -> Option<Json>): (r: GeminiServiceResponse)
    ensures r.text.Some? != r.recommendations.Some?
    ensures r.text.Some? ==> r.text.value != ""
    ensures !ReplyPresent(text) ==> r == TextResponse(NoDetailReply)
    ensures ReplyPresent(text) && r.text.Some? ==> r.text == text
    ensures r.recommendations.Some? <==>
              ReplyPresent(text) && RecommendationItems(text.value, parse).Some?
              && JNull !in RecommendationItems(text.value, parse).value
    ensures r.recommendations.Some? ==>
              var items := RecommendationItems(text.value, parse).value;
              |r.recommendations.value| == |items|
              && forall i :: 0 <= i < |items| ==>
                   r.recommendations.value[i] == Normalise(items[i], Sources(chunks))
  {
    if ReplyPresent(text) then
      var responseText := text.value;
      match RecommendationItems(responseText, parse)
      // no embedded object, a parse that throws, a `null` value (reading its
      // property throws) or a `recommendations` that is not an array: each
      // path of the source ends in `{ text: responseText }`
      case None => TextResponse(responseText)
      case Some(items) =>
        match NormaliseAll(items, Sources(chunks))
        case None => TextResponse(responseText)
        case Some(recommendations) => GeminiServiceResponse(None, Some(recommendations))
    else FinalReply(text)
  }

  /** `getBookRecommendation(messages)`: the API receives the turns built
      from the whole history; a failed call rejects with a fixed message. */
  function GetBookRecommendation(messages: seq<ChatMessage>, api: seq<Content> -> ApiReply,
                                 parse: string -> Option<Json>): (r: ServiceOutcome)
    ensures r.Threw? <==> api(ToContents(messages)).CallFailed?
    ensures r.Threw? ==> r.thrown == ErrorObject(CommunicationFailure)
    ensures r.Resolved? ==> r.response == Interpret(api(ToContents(messages)).text,
                                                    api(ToContents(messages)).groundingChunks, parse)
  {
    match api(ToContents(messages))
    case CallFailed => Threw(ErrorObject(CommunicationFailure))
    case Replied(text, chunks) => Resolved(Interpret(text, chunks, parse))
  }
}

module GeminiServiceProperties {
  import opened Types
  import opened Json
  import opened StringOps
  import opened GeminiService

  /** A reply without a `{`, without a `}`, or whose last `}` precedes its
      first `{`, is shown as it stands. */
  lemma NoObjectGivesText(t: string, chunks: Option<seq<GroundingChunk>>, parse: string -> Option<Json>)
    requires t != ""
    requires '{' !in t || '}' !in t || LastIndexOf(t, '}') < IndexOf(t, '{')
    ensures Interpret(Some(t), chunks, parse) == TextResponse(t)
  {
  }

  /** A span that does not parse degrades to the raw reply text. */
  lemma ParseFailureGivesText(t: string, chunks: Option<seq<GroundingChunk>>, parse: string -> Option<Json>)
    requires t != "" && JsonSpan(t).Some? && parse(JsonSpan(t).value).None?
    ensures Interpret(Some(t), chunks, parse) == TextResponse(t)
  {
  }

  /** A parsed object whose `recommendations` is missing or not an array
      falls through to the final return, which shows the reply text. */
  lemma NotAnArrayGivesText(t: string, chunks: Option<seq<GroundingChunk>>, parse: string -> Option<Json>)
    requires t != "" && JsonSpan(t).Some? && parse(JsonSpan(t).value).Some?
    requires var parsed := parse(JsonSpan(t).value).value;
             parsed.JObject? && !(Lookup(parsed.members, "recommendations").Some?
                                  && Lookup(parsed.members, "recommendations").value.JArray?)
    ensures Interpret(Some(t), chunks, parse) == TextResponse(t)
  {
  }

  /** An empty `recommendations` array is not text: it yields an empty list
      of recommendations. */
  lemma EmptyArrayGivesNoRecommendations(t: string, chunks: Option<seq<GroundingChunk>>, parse: string -> Option<Json>)
    requires t != "" && RecommendationItems(t, parse) == Some([])
    ensures Interpret(Some(t), chunks, parse) == GeminiServiceResponse(None, Some([]))
  {
  }

  /** Every recommendation of one reply carries the same citation list, of at
      most three entries, and none is bookmarked yet. */
  lemma SharedSources(text: Option<string>, chunks: Option<seq<GroundingChunk>>, parse: string -> Option<Json>)
    ensures var r := Interpret(text, chunks, parse);
            r.recommendations.Some? ==>
              forall i :: 0 <= i < |r.recommendations.value| ==>
                r.recommendations.value[i].sources == Some(Sources(chunks))
                && |r.recommendations.value[i].sources.value| <= 3
                && r.recommendations.value[i].isBookmarked.None?
  {
  }

  /** Citations are kept on the presence of a web entry, not of a URI: a web
      entry without a URI reaches the recommendations. */
  lemma SourceWithoutUriIsKept()
    ensures var web := GroundingChunkWeb(None, Some("Goodreads"));
            Sources(Some([GroundingChunk(None), GroundingChunk(Some(web))])) == [web]
  {
    var web := GroundingChunkWeb(None, Some("Goodreads"));
    assert [GroundingChunk(None), GroundingChunk(Some(web))][1..] == [GroundingChunk(Some(web))];
  }

  /** The web citations of a list of chunks are those of its parts, in
      order: the citations keep the chunks' order and drop only chunks
      without a web entry. */
  lemma {:induction false} WebsAppend(cs1: seq<GroundingChunk>, cs2: seq<GroundingChunk>)
    ensures Webs(cs1 + cs2) == Webs(cs1) + Webs(cs2)
  {
    if cs1 == [] {
      assert cs1 + cs2 == cs2;
    } else {
      assert (cs1 + cs2)[1..] == cs1[1..] + cs2;
      WebsAppend(cs1[1..], cs2);
    }
  }

  lemma WebsOfOne(c: GroundingChunk)
    ensures Webs([c]) == if c.web.Some? then [c.web.value] else []
  {
    assert [c][1..] == [];
  }

  /** A greeting without braces comes back as text. */
  lemma GreetingScenario(chunks: Option<seq<GroundingChunk>>, parse: string -> Option<Json>)
    ensures Interpret(Some("Hello! What genres do you enjoy?"), chunks, parse)
            == GeminiServiceResponse(Some("Hello! What genres do you enjoy?"), None)
  {
    assert '{' !in "Hello! What genres do you enjoy?";
  }

  /** Conversational text before the object is skipped: a reply made of
      text without `{` followed by an object is reduced to the object. */
  lemma SpanAfterText(prefix: string, span: string)
    requires '{' !in prefix
    requires |span| >= 2 && span[0] == '{' && span[|span| - 1] == '}'
    ensures JsonSpan(prefix + span) == Some(span)
  {
    var reply := prefix + span;
    assert reply[|prefix|] == '{';
    assert forall k :: 0 <= k < |prefix| ==> reply[k] == prefix[k];
    assert IndexOf(reply, '{') == |prefix|;
    assert LastIndexOf(reply, '}') == |reply| - 1;
    assert reply[|prefix|..|reply|] == span;
  }
}

/** The shared data model of the Curator front-end (types.ts). Optional
    TypeScript fields (`field?: T`) are `Option<T>`; `None` is `undefined`. */
module Types {

  datatype Option<+T> = None | Some(value: T)

  /** The author of a chat message. */
  datatype Role = User | Bot

  datatype SimilarBook = SimilarBook(title: string, author: string)

  datatype RecommendationDetails = RecommendationDetails(
    title: string,
    author: string,
    genre: string,
    keywords: seq<string>,
    pitch: string,
    similarBooks: Option<seq<SimilarBook>>)

  /** A web citation attached to a reply by the search tool. The API may omit
      either field, so both are optional here. */
  datatype GroundingChunkWeb = GroundingChunkWeb(uri: Option<string>, title: Option<string>)

  datatype RecommendationResponse = RecommendationResponse(
    details: RecommendationDetails,
    justification: string,
    sources: Option<seq<GroundingChunkWeb>>,
    isBookmarked: Option<bool>)
  {
    /** JavaScript truthiness of `isBookmarked`: absent counts as false. */
    predicate Bookmarked() {
      isBookmarked == Some(true)
    }
  }

  datatype ChatMessage = ChatMessage(
    role: Role,
    text: Option<string>,
    recommendations: Option<seq<RecommendationResponse>>)

  /** What the recommendation service resolves with. */
  datatype GeminiServiceResponse = GeminiServiceResponse(
    text: Option<string>,
    recommendations: Option<seq<RecommendationResponse>>)

  /** A value thrown by the service: an `Error` object with its message, or
      anything else. */
  datatype Thrown = ErrorObject(message: string) | NonError

  /** How a call of the service settles: it resolves with a response or
      rejects with a thrown value. */
  datatype ServiceOutcome = Resolved(response: GeminiServiceResponse) | Threw(thrown: Thrown)
}

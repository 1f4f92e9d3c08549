# The Literary Curator — a Dafny model of its interpretation and state logic

The Literary Curator is a chat front-end: the user talks to an AI librarian
persona, which answers with plain text or with structured book
recommendations. Recommendations are collected in a reading list that can
be filtered and bookmarked. This project models the parts of the front-end
that compute something, and proves properties about them:

- **the recommendation client** (`services/geminiService.ts`), modules
  `GeminiService` and `GeminiServiceProperties`. It turns the chat history
  into API turns, with a summary turn for each earlier recommendation
  message. It finds the span from the first `{` to the last `}` of the
  reply and parses it. It reshapes each parsed entry into a recommendation
  that carries the reply's first three web citations. Every parsing failure
  falls back to text; a failed API call rejects. The network call is a parameter
  `api: seq<Content> -> ApiReply`, so the API visibly receives the turns
  built from the whole history. `JSON.parse` is a parameter
  `parse: string -> Option<Json>`; `None` stands for a parse that throws.
- **the controller** (`App.tsx`), module `App`. The pure reducer `Send`
  describes one send as a single step. Class `CuratorApp` has the four
  state fields `messages`, `recommendedBooks`, `isLoading` and `error`.
  Its `HandleSendMessage` updates them step by step, as the source does,
  and is proved to reach `Send`'s state. The bookmark toggle and the
  start-up load are functions.
- **the reading-list view's derived data** (`components/ReadingList.tsx`),
  modules `ReadingList` and `StringOrder`: the filter switch, the sorted
  and de-duplicated genre list, the bookmark count and the filter-button
  comparison.
- Supporting modules: `Types` holds the records of `types.ts`, with
  optional fields as `Option`. `Constants` holds the initial greeting.
  `Json` holds parsed values, property access and truthiness. `StringOps`
  holds `indexOf`, `lastIndexOf` and `join`.

Behaviours of the code that the model keeps as they are:

- An empty `recommendations` array yields `{recommendations: []}`, not text.
  The controller then shows "I'm not sure what to say about that." and
  leaves the reading list as it was (`App.EmptyArrayShowsNotSure`).
- Citations are kept when a grounding chunk has a `web` entry, whether or
  not that entry has a URI (`GeminiServiceProperties.SourceWithoutUriIsKept`).
  A citation without a URI can therefore reach a recommendation.
- An entry that is `null` makes reading its fields throw. The whole reply
  then falls back to text.
- A reply whose parsed value is `null` falls back to text for the same
  reason.

## Model

| member | source | states |
|---|---|---|
| `Json.LastKeyIndex` | services/geminiService.ts:92 | the last position holding the key, with no later one; -1 exactly when no member has the key |
| `Json.Lookup` | services/geminiService.ts:92 | a key's value is that of its last occurrence in the parsed object; it is absent exactly when no member has the key |
| `Json.Property` | services/geminiService.ts:92 | only an object has properties; on an object, access is `Lookup` |
| `StringOps.IndexOf` | services/geminiService.ts:79 | -1 exactly when the character is absent; otherwise the position holds it and no earlier position does |
| `StringOps.LastIndexOf` | services/geminiService.ts:80 | -1 exactly when the character is absent; otherwise the position holds it and no later position does |
| `StringOps.Join` | services/geminiService.ts:54 | an empty list joins to ""; a single element joins to itself; otherwise the text starts with the first element and ends with the last |
| `StringOps.JoinAppend` | services/geminiService.ts:54 | appending an element to a non-empty list appends the separator and then that element, so the separator sits between every two neighbours |
| `StringOps.JoinContains` | services/geminiService.ts:54 | every element of a joined list occurs in the joined text |
| `GeminiService.ToContents` | services/geminiService.ts:48-58 | one turn per message, same length, same order |
| `GeminiService.ToContent` | services/geminiService.ts:49-57 | one part; a user turn exactly for a user message, carrying its text; a bot message with recommendations gives the summary text; any other bot message gives its literal text |
| `GeminiService.ContentsShape` | services/geminiService.ts:48-58 | a user message becomes a user turn carrying exactly its text; a bot message with recommendations becomes a model turn with the summary text; a bot message with absent or empty recommendations becomes a model turn with its literal text; every turn has one part |
| `GeminiService.QuotedTitles` | services/geminiService.ts:54 | one double-quoted title per recommendation, in order |
| `GeminiService.RecommendationSummary` | services/geminiService.ts:55 | the summary starts with the fixed prefix, ends with the fixed suffix, and names the first quoted title right after the prefix |
| `GeminiService.SummaryMentionsEveryTitle` | services/geminiService.ts:53-55 | every quoted title appears in the summary turn, between the fixed prefix and the fixed suffix |
| `GeminiService.JsonSpan` | services/geminiService.ts:79-89 | nothing exactly when there is no `{`, no `}`, or the last `}` precedes the first `{`; otherwise a span that starts with `{`, ends with `}`, has no `{` before it and no `}` after it in the reply |
| `GeminiService.NoSpanIffNoBracePair` | services/geminiService.ts:79-82 | the extraction finds nothing exactly when no `{` of the reply is followed by a `}` |
| `GeminiService.Webs` | services/geminiService.ts:106-107 | each citation is the web entry of some chunk; there are no more citations than chunks |
| `GeminiService.Sources` | services/geminiService.ts:105-108 | a prefix of the chunks' web entries: all of them when there are at most three, exactly the first three otherwise; none without metadata |
| `GeminiService.StringField` | services/geminiService.ts:97-104 | a string field is copied verbatim; a missing or non-string field gives "" |
| `GeminiService.KeywordsField` | services/geminiService.ts:100 | an array of keywords keeps its length and its string entries; anything else gives [] |
| `GeminiService.SimilarBooksField` | services/geminiService.ts:102 | a missing or falsy `similar_books` gives []; an array keeps its length and order |
| `GeminiService.SimilarBookList` | services/geminiService.ts:102 | one similar book per array entry, in order, each read from its entry |
| `GeminiService.Normalise` | services/geminiService.ts:95-109 | title, author, genre, keywords, pitch and justification are the entry's fields; `similar_books` is always present; `sources` is the reply's list; not bookmarked |
| `GeminiService.NormaliseAll` | services/geminiService.ts:95-109 | fails exactly when an entry is `null`; otherwise one recommendation per entry, same length and order |
| `GeminiService.RecommendationItems` | services/geminiService.ts:79-94 | entries exactly when the reply has a brace span that parses to an object whose last `recommendations` member is an array; the entries are that array's items |
| `GeminiService.Interpret` | services/geminiService.ts:73-121 | exactly one of text and recommendations, and text is never empty; an empty or absent reply gives the fixed request for detail; any text result is the reply itself; recommendations exactly when the embedded object parses and its `recommendations` is an array without `null` entries, one per entry in order |
| `GeminiService.FinalReply` | services/geminiService.ts:121 | a text-only response whose text is never empty: the reply when present, otherwise the fixed request for detail |
| `GeminiService.GetBookRecommendation` | services/geminiService.ts:44-127 | the API receives the turns of the whole history; a failed call rejects with the fixed communication message; a reply resolves with its interpretation |
| `GeminiServiceProperties.NoObjectGivesText` | services/geminiService.ts:79-86 | without a `{`, without a `}`, or with the last `}` before the first `{`, the result is exactly the reply text |
| `GeminiServiceProperties.ParseFailureGivesText` | services/geminiService.ts:113-117 | a span that does not parse gives the reply text |
| `GeminiServiceProperties.NotAnArrayGivesText` | services/geminiService.ts:92-121 | a parsed object whose `recommendations` is not an array gives the reply text |
| `GeminiServiceProperties.EmptyArrayGivesNoRecommendations` | services/geminiService.ts:94-111 | an empty `recommendations` array gives an empty recommendation list, not text |
| `GeminiServiceProperties.SharedSources` | services/geminiService.ts:105-108 | every recommendation of one reply carries the same list of at most three citations and is not bookmarked |
| `GeminiServiceProperties.SourceWithoutUriIsKept` | services/geminiService.ts:106 | a web entry without a URI is kept; chunks without a web entry are dropped |
| `GeminiServiceProperties.WebsAppend` | services/geminiService.ts:106-107 | the citations of joined chunk lists are the joined citations, so chunk order is kept |
| `GeminiServiceProperties.WebsOfOne` | services/geminiService.ts:106-107 | a single chunk contributes its web entry or nothing |
| `GeminiServiceProperties.GreetingScenario` | services/geminiService.ts:82-86 | "Hello! What genres do you enjoy?" comes back as that text |
| `GeminiServiceProperties.SpanAfterText` | services/geminiService.ts:77-89 | text without `{` before an object is skipped and the span is the object |
| `StringOrder.BelowReflexive` | components/ReadingList.tsx:14 | the sort order is reflexive |
| `StringOrder.Below` | components/ReadingList.tsx:14 | a prefix sorts no later than the string it starts, and a string that sorts no later than one of its own prefixes is that prefix |
| `StringOrder.BelowAntisymmetric` | components/ReadingList.tsx:14 | the sort order is antisymmetric |
| `StringOrder.BelowTransitive` | components/ReadingList.tsx:14 | the sort order is transitive |
| `StringOrder.BelowTotal` | components/ReadingList.tsx:14 | the sort order is total |
| `StringOrder.Insert` | components/ReadingList.tsx:14 | inserting into a sorted list keeps it sorted and adds exactly one element |
| `StringOrder.Sort` | components/ReadingList.tsx:14 | the result is sorted and a permutation of the input |
| `ReadingList.SubsequenceNoLonger` | components/ReadingList.tsx:56 | a subsequence is never longer, so "Showing X of Y" has X at most Y |
| `ReadingList.Select` | components/ReadingList.tsx:17-27 | a filter keeps a subsequence; each element it keeps passes the test, as often as it occurs, and no other element is kept |
| `ReadingList.SelectAgrees` | components/ReadingList.tsx:15-22 | two tests that agree on every entry select the same list |
| `ReadingList.FilteredBooks` | components/ReadingList.tsx:17-27 | the shown books are a subsequence of the list, never more than the list |
| `ReadingList.Matches` | components/ReadingList.tsx:18-26 | "All" admits every book; "Bookmarked" admits exactly the books flagged true; a genre filter admits exactly the books of that genre |
| `ReadingList.AllFilterShowsEverything` | components/ReadingList.tsx:23-25 | "All" shows the list unchanged |
| `ReadingList.BookmarkedFilterSelects` | components/ReadingList.tsx:21-22 | "Bookmarked" shows exactly the bookmarked entries, in order |
| `ReadingList.GenreFilterSelects` | components/ReadingList.tsx:19-20 | a genre filter shows exactly that genre's entries, in order |
| `ReadingList.BookmarkedCount` | components/ReadingList.tsx:15 | the count equals the number of books the "Bookmarked" filter shows and never exceeds the list's length |
| `ReadingList.GenresOf` | components/ReadingList.tsx:14 | one genre per book, in order |
| `ReadingList.Distinct` | components/ReadingList.tsx:14 | no duplicates, and the same elements as the input |
| `ReadingList.DistinctPositions` | components/ReadingList.tsx:14 | a list without duplicates has different strings at different positions |
| `ReadingList.Genres` | components/ReadingList.tsx:14 | strictly ascending, so no duplicates; contains exactly the genres that occur in the books |
| `ReadingList.GenresOfMembers` | components/ReadingList.tsx:14 | a string is among the mapped genres exactly when some book has it as genre |
| `ReadingList.IsActive` | components/ReadingList.tsx:34 | a button is active exactly when its filter equals the active filter |
| `App.HasRecommendations` | App.tsx:49 | true exactly when the result carries a recommendation list with at least one entry |
| `App.ErrorMessage` | App.tsx:59 | an `Error` gives its own message; any other thrown value gives the fixed unknown-error text |
| `App.BotReply` | App.tsx:47-61 | always a displayable bot message: the recommendations when there are some; otherwise the result's text or the "not sure" text when that is empty or absent; on a thrown value, exactly a text-only message made of the apology and the error's message |
| `App.Send` | App.tsx:37-65 | the history grows by exactly two: the user message, then one bot reply to the service's answer on the extended history; the reading list gains the recommendations at its end, in order, and only on success with recommendations; the error is set exactly when the service throws; loading is over |
| `App.Flipped` | App.tsx:71 | the bookmark is negated, with absent read as false; every other field is kept |
| `App.ToggleBookmark` | App.tsx:67-75 | length kept; every entry with the title is flipped; every other entry is unchanged |
| `App.ToggleTwice` | App.tsx:67-75 | toggling twice restores every truth value and every other field; entries with a present flag or another title are restored exactly |
| `App.InitialReadingList` | App.tsx:13-22 | nothing stored, an empty string or a failed parse gives the empty list; otherwise the parsed list |
| `App.ReloadRoundTrip` | App.tsx:13-35 | if the decoder inverts a never-empty encoder, a stored list is reloaded unchanged |
| `App.GeminiFailureMessage` | App.tsx:58-61 | with the real service, a recorded error is the fixed communication message, and so is the apology's tail |
| `App.EmptyArrayShowsNotSure` | App.tsx:49-54 | an empty `recommendations` array from the service shows the "not sure" text and leaves the reading list alone |
| `App.CuratorApp.constructor` | App.tsx:12-24 | the transcript starts with the greeting; the reading list is the loaded one; not loading; no error |
| `App.CuratorApp.HandleSendMessage` | App.tsx:37-65 | the new state is `Send` of the old state, and the invariant holds: nothing loading and every bot message displayable |
| `App.CuratorApp.HandleToggleBookmark` | App.tsx:67-75 | the reading list becomes its toggled version; the rest of the state is unchanged |

## Left out

- The API client's construction, the `API_KEY` check and the request's
  model name, persona text and search tool (services/geminiService.ts:6-42,
  61-71). These are a foreign network library and static text. The reply
  is an input.
- `JSON.parse`, `JSON.stringify` and `localStorage`. These are library code
  and browser I/O. Parsing is a function parameter. The stored list is an
  optional string, `None` when nothing is stored or the store cannot be
  read. Saving after each change (App.tsx:29-35) is not modelled. The
  start-up decoder yields a list of recommendations, so a stored value
  that parses to something other than a list is not modelled.
- GeminiService.StringField: a field that is missing or not a string becomes "".
  The source copies any value through untyped, such as `undefined` or a
  number. The records are typed, so an untyped value has no place in them.
- GeminiService.KeywordsField: a missing or non-array `keywords` becomes [],
  and a non-string keyword becomes "". The source copies `rec.keywords`
  as it is, so it can hold `undefined`, a string or a number. The typed
  record holds a list of strings only.
- GeminiService.SimilarBooksField: a truthy `similar_books` that is not an
  array becomes [], and each entry is read field by field into a typed
  similar book (a missing or non-string title or author becomes "", a
  non-object entry has both ""). The source copies `rec.similar_books`
  as it is, entries included. The typed record cannot hold other values.
- GeminiService.RecommendationSummary: a title the source would print as
  `undefined` is "" here, because of the typed fields above.
- StringOrder.Below: it compares characters by code point. JavaScript's
  default sort compares UTF-16 code units, which orders characters outside
  the Basic Multilingual Plane differently.
- ReadingList.IsActive: it compares filters structurally, which is what
  JavaScript's `===` does on the strings and `undefined` used here.
- The loading flag while the call is outstanding. A send is one atomic
  step, so the moment when `isLoading` is true (App.tsx:41) cannot be
  observed. Late responses and concurrent sends are left out as well.
- `console` logging, navigation and menu state, and all rendering
  components (ChatInterface, Message, MultiRecommendation,
  RecommendationCard, ChatInput and its speech input).
- Numbers in parsed JSON are reals. Infinities are not represented; only
  their truthiness could matter, and any nonzero real has the same
  truthiness.

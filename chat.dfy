/**
 * The chat handler (src/app/api/chat/route.js): the user's query taken from the last message,
 * the retrieval of course content through the search route, its rendering as one context block
 * with a parallel list of sources, and the system message put in front of the conversation
 * when there is context.
 */
module Chat {
  import opened Wrappers
  import opened Strings
  import opened Search
  import opened Embeddings

  /** One part of a UI message; only its `text` is read. */
  datatype Part = Part(text: Option<string>)

  /** A message of the UI conversation, where `parts` and `content` are both optional. */
  datatype UiMessage = UiMessage(parts: Option<seq<Part>>, content: Option<string>)

  /** A message in the form the language model takes (the output of `convertToModelMessages`). */
  datatype ModelMessage = ModelMessage(role: string, content: string)

  /** The body the chat route posts to the search route (lines 43-47). */
  datatype SearchRequest = SearchRequest(query: string, sessionId: string, limit: int)

  /**
   * What came back from the search route: the `fetch` threw (or its body was not JSON), the
   * response was not ok, or its parsed body, whose `results` may be missing.
   */
  datatype SearchReply = Threw | NotOk | Replied(results: Option<seq<SearchResult>>)

  /** One entry of `sources` (lines 62-67). */
  datatype Source = Source(course: string, chapter: string, filename: string, score: real)

  /** The two locals the retrieval step sets: `contextText` and `sources`. */
  datatype Retrieval = Retrieval(contextText: string, sources: seq<Source>)

  /** What the handler passes to `streamText` (lines 101-106). */
  datatype StreamRequest = StreamRequest(model: string, messages: seq<ModelMessage>, temperature: real, maxTokens: nat)

  /** The 500 returned when `GOOGLE_API_KEY` is not set (lines 12-15). */
  datatype ChatError = ApiKeyMissing

  const RetrievalLimit: int := 3
  const Separator: string := "\n\n---\n\n"
  const ChatModel: string := "models/gemini-2.5-flash"
  const Temperature: real := 0.7
  const MaxTokens: nat := 2000

  /** The system prompt around the context (lines 88-95); line 88 ends with a space. */
  const PromptIntro: string :=
    "You are MLectureLens, an AI assistant that helps students with Node.js and Python programming courses. \n\n"
  const PromptInstruction: string :=
    "Use the following relevant course content to answer the user's question. If the context doesn't contain relevant information, provide a helpful general answer but mention that you don't have specific course material on that topic.\n\n"
  const PromptHeading: string := "RELEVANT COURSE CONTENT:\n"
  const PromptCitation: string :=
    "\n\nAlways cite which course and chapter your information comes from when referencing the provided content."

  /** `lastMessage?.parts?.[0]?.text`: absent when there are no parts or the first has no text. */
  function FirstPartText(m: UiMessage): Option<string> {
    if m.parts.Some? && m.parts.value != [] then m.parts.value[0].text else None
  }

  /** A JavaScript string value is truthy when it is present and not empty. */
  predicate Truthy(s: Option<string>) {
    s.Some? && s.value != ""
  }

  /** `userQuery` (lines 22-24): the first part's text, else the `content`, else `""`; each `||` skips an empty string. */
  function UserQuery(messages: seq<UiMessage>): string {
    if messages == [] then ""
    else
      var last := messages[|messages| - 1];
      if Truthy(FirstPartText(last)) then FirstPartText(last).value
      else if Truthy(last.content) then last.content.value
      else ""
  }

  /**
   * The query is the last message's first part text when that is non-empty, else its content,
   * and it is empty exactly when neither is there; earlier messages play no part.
   */
  lemma UserQueryOfLastMessage(earlier: seq<UiMessage>, last: UiMessage)
    ensures var q := UserQuery(earlier + [last]);
      && (Truthy(FirstPartText(last)) ==> q == FirstPartText(last).value)
      && (!Truthy(FirstPartText(last)) && Truthy(last.content) ==> q == last.content.value)
      && (q == "" <==> !Truthy(FirstPartText(last)) && !Truthy(last.content))
      && q == UserQuery([last])
  {
    assert (earlier + [last])[|earlier + [last]| - 1] == last;
  }

  /** An empty conversation has no query. */
  lemma NoMessagesNoQuery()
    ensures UserQuery([]) == ""
  {
  }

  /** The block one search result contributes to the context (line 58). */
  function ContextBlock(r: SearchResult): (block: string)
    ensures StartsWith(block, "[") && |block| >= 5 + |r.content|
    ensures EndsWith(block, r.content)
  {
    var heading := "[" + r.metadata.document.course + " - " + r.metadata.document.chapter + "]\n";
    assert (heading + r.content)[|heading|..] == r.content;
    heading + r.content
  }

  function Blocks(results: seq<SearchResult>): (blocks: seq<string>)
    ensures |blocks| == |results| && forall i :: 0 <= i < |results| ==> blocks[i] == ContextBlock(results[i])
  {
    if results == [] then [] else [ContextBlock(results[0])] + Blocks(results[1..])
  }

  /** `contextText` (lines 55-60): the blocks joined by the separator. */
  function ContextText(results: seq<SearchResult>): string {
    Join(Blocks(results), Separator)
  }

  function SourceOf(r: SearchResult): Source {
    Source(r.metadata.document.course, r.metadata.document.chapter, r.metadata.document.filename, r.score)
  }

  /** `sources` (lines 62-67): one entry per result, in the same order. */
  function Sources(results: seq<SearchResult>): (sources: seq<Source>)
    ensures |sources| == |results| && forall i :: 0 <= i < |results| ==> sources[i] == SourceOf(results[i])
  {
    if results == [] then [] else [SourceOf(results[0])] + Sources(results[1..])
  }

  /** The context is empty exactly when there are no results. */
  lemma ContextEmptyIffNoResults(results: seq<SearchResult>)
    ensures ContextText(results) == "" <==> results == []
  {
    if results != [] {
      var blocks := Blocks(results);
      JoinLength(blocks, Separator);
      assert |ContextText(results)| >= |blocks[|blocks| - 1]| >= 1;
    }
  }

  /** The block of result `i` sits in the context at the offset `Join` gives the `i`-th part. */
  lemma ContextPlacesBlock(results: seq<SearchResult>, i: nat)
    requires i < |results|
    ensures OccursAt(ContextText(results), ContextBlock(results[i]), JoinOffset(Blocks(results), Separator, i))
  {
    var blocks := Blocks(results);
    assert blocks[i] == ContextBlock(results[i]);
    JoinPlacesPart(blocks, Separator, i);
  }

  /**
   * The blocks come in rank order: the block of result `i` is followed by `"\n\n---\n\n"` and
   * then, right after it, by the block of result `i + 1`.
   */
  lemma ContextSeparatesBlocks(results: seq<SearchResult>, i: nat)
    requires i + 1 < |results|
    ensures OccursAt(ContextText(results), Separator, JoinOffset(Blocks(results), Separator, i) + |ContextBlock(results[i])|)
    ensures JoinOffset(Blocks(results), Separator, i + 1) ==
      JoinOffset(Blocks(results), Separator, i) + |ContextBlock(results[i])| + |Separator|
  {
    var blocks := Blocks(results);
    assert ContextText(results) == Join(blocks, Separator);
    assert blocks[i] == ContextBlock(results[i]);
    var k := JoinOffset(blocks, Separator, i) + |blocks[i]|;
    SeparatorAfterPart(blocks, Separator, i);
    assert OccursAt(ContextText(results), Separator, k);
  }

  /** In a join, the separator follows part `i`, and part `i + 1` follows the separator. */
  lemma SeparatorAfterPart(parts: seq<string>, sep: string, i: nat)
    requires i + 1 < |parts|
    ensures OccursAt(Join(parts, sep), sep, JoinOffset(parts, sep, i) + |parts[i]|)
    ensures JoinOffset(parts, sep, i + 1) == JoinOffset(parts, sep, i) + |parts[i]| + |sep|
  {
    JoinPlacesSeparator(parts, sep, i);
    NextOffset(parts, sep, i);
  }

  lemma {:induction false} NextOffset(parts: seq<string>, sep: string, i: nat)
    requires i + 1 <= |parts|
    ensures JoinOffset(parts, sep, i + 1) == JoinOffset(parts, sep, i) + |parts[i]| + |sep|
  {
    if i > 0 {
      NextOffset(parts[1..], sep, i - 1);
    }
  }

  /**
   * The retrieval step (lines 27-78): nothing unless both the session id and the query are
   * non-empty; then one request to the search route with limit 3, and context and sources only
   * from an ok reply with a non-empty `results`.
   */
  function Retrieve(messages: seq<UiMessage>, sessionId: string, search: SearchRequest -> SearchReply): Retrieval {
    var query := UserQuery(messages);
    if sessionId == "" || query == "" then Retrieval("", [])
    else
      match search(SearchRequest(query, sessionId, RetrievalLimit))
      case Replied(Some(results)) =>
        if |results| > 0 then Retrieval(ContextText(results), Sources(results)) else Retrieval("", [])
      case _ => Retrieval("", [])
  }

  /** Without a session id or a query the search route is not consulted and there is no context. */
  lemma NoRetrievalWithoutSessionAndQuery(messages: seq<UiMessage>, sessionId: string, search: SearchRequest -> SearchReply)
    requires sessionId == "" || UserQuery(messages) == ""
    ensures Retrieve(messages, sessionId, search) == Retrieval("", [])
  {
  }

  /**
   * The context is non-empty exactly when retrieval was attempted and the search route answered
   * ok with results; then the sources list those results one for one. A thrown error, a non-ok
   * response or no results leave both empty.
   */
  lemma RetrievalIffResults(messages: seq<UiMessage>, sessionId: string, search: SearchRequest -> SearchReply)
    ensures var r := Retrieve(messages, sessionId, search);
      var reply := search(SearchRequest(UserQuery(messages), sessionId, RetrievalLimit));
      var found := sessionId != "" && UserQuery(messages) != "" && reply.Replied? && reply.results.Some? && reply.results.value != [];
      && (r.contextText != "" <==> found)
      && (found ==> r.contextText == ContextText(reply.results.value) && r.sources == Sources(reply.results.value))
      && (!found ==> r == Retrieval("", []))
  {
    var reply := search(SearchRequest(UserQuery(messages), sessionId, RetrievalLimit));
    if reply.Replied? && reply.results.Some? {
      ContextEmptyIffNoResults(reply.results.value);
    }
  }

  /**
   * When the reply is the search route's own answer to the chat's request, there are at most
   * three sources, best first.
   */
  lemma RetrievalFromSearchRoute(messages: seq<UiMessage>, sessionId: string, search: SearchRequest -> SearchReply,
                                 queryEmbedding: Option<seq<real>>, stored: Option<seq<EmbeddingRecord>>, sqrt: real -> real)
    requires var query := UserQuery(messages);
      var answer := Search.Search(query, queryEmbedding, stored, Some(RetrievalLimit), sqrt);
      answer.Ok? && search(SearchRequest(query, sessionId, RetrievalLimit)) == Replied(Some(answer.value))
    ensures var sources := Retrieve(messages, sessionId, search).sources;
      |sources| <= 3 && forall i, j :: 0 <= i < j < |sources| ==> sources[i].score >= sources[j].score
  {
    var query := UserQuery(messages);
    SearchResults(query, queryEmbedding, stored, Some(RetrievalLimit), sqrt);
  }

  function SystemPrompt(contextText: string): string {
    PromptIntro + PromptInstruction + PromptHeading + contextText + PromptCitation
  }

  /** The system prompt quotes the context verbatim. */
  lemma SystemPromptQuotesContext(contextText: string)
    ensures OccursAt(SystemPrompt(contextText), contextText, |PromptIntro + PromptInstruction + PromptHeading|)
  {
    var head := PromptIntro + PromptInstruction + PromptHeading;
    assert SystemPrompt(contextText) == head + contextText + PromptCitation;
    assert (head + contextText + PromptCitation)[|head|..|head| + |contextText|] == contextText;
  }

  /** `enhancedMessages` (lines 81-99): the converted conversation, with a system message in front when there is context. */
  function Enhanced(contextText: string, converted: seq<ModelMessage>): seq<ModelMessage> {
    if contextText != "" then [ModelMessage("system", SystemPrompt(contextText))] + converted else converted
  }

  /**
   * Exactly one system message, quoting the context, is put in front when the context is
   * non-empty; otherwise the converted messages pass through unchanged.
   */
  lemma SystemMessageIffContext(contextText: string, converted: seq<ModelMessage>)
    ensures var enhanced := Enhanced(contextText, converted);
      && (contextText == "" ==> enhanced == converted)
      && (contextText != "" ==>
            && |enhanced| == |converted| + 1
            && enhanced[0].role == "system"
            && Contains(enhanced[0].content, contextText)
            && enhanced[1..] == converted)
  {
    if contextText != "" {
      SystemPromptQuotesContext(contextText);
    }
  }

  /**
   * The handler up to the call of `streamText`: it refuses without an API key; otherwise it sets
   * `contextText` and `sources` from the search route, puts the system message in front of the
   * converted conversation when there is context, and hands that to the model. `converted` is
   * the result of `convertToModelMessages(messages)`, and `search` stands for the request to the
   * search route. The `sources` it builds are returned beside the request.
   */
  method HandleChat(apiKeyConfigured: bool, messages: seq<UiMessage>, sessionId: string,
                    search: SearchRequest -> SearchReply, converted: seq<ModelMessage>)
    returns (r: Result<StreamRequest, ChatError>, sources: seq<Source>)
    ensures !apiKeyConfigured <==> r == Err(ApiKeyMissing)
    ensures apiKeyConfigured ==>
      var retrieval := Retrieve(messages, sessionId, search);
      && r == Ok(StreamRequest(ChatModel, Enhanced(retrieval.contextText, converted), Temperature, MaxTokens))
      && sources == retrieval.sources
    ensures !apiKeyConfigured ==> sources == []
  {
    sources := [];
    if !apiKeyConfigured {
      return Err(ApiKeyMissing), sources;
    }
    var userQuery := UserQuery(messages);
    var contextText := "";
    if sessionId != "" && userQuery != "" {
      var reply := search(SearchRequest(userQuery, sessionId, RetrievalLimit));
      if reply.Replied? && reply.results.Some? && |reply.results.value| > 0 {
        contextText := ContextText(reply.results.value);
        sources := Sources(reply.results.value);
      }
    }
    var enhancedMessages := converted;
    if contextText != "" {
      enhancedMessages := [ModelMessage("system", SystemPrompt(contextText))] + enhancedMessages;
    }
    return Ok(StreamRequest(ChatModel, enhancedMessages, Temperature, MaxTokens)), sources;
  }
}

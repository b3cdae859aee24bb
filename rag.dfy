/** The orchestration half of `sendMessageToRAG`: render the retrieved
    chunks into a context block, embed it with the question in the prompt,
    hand the request to the generation service, and shape the answer
    object from the outcome. The generation service is a parameter: any
    function from requests to outcomes. */
module Rag {
  import opened Text
  import opened Knowledge
  import opened Retrieval

  datatype Option<T> = None | Some(value: T)

  /** What the generation service sends back: a response whose `text` may
      be absent, or a failure of any kind (network, authentication,
      quota), which the source catches. */
  datatype GenerationOutcome = Success(text: Option<string>) | Failure

  /** The request handed to the generation service. */
  datatype GenerationRequest = GenerationRequest(model: string, prompt: string)

  /** The answer object returned to the chat screen. */
  datatype RagAnswer = RagAnswer(text: string, retrievedDocs: seq<DocumentChunk>)

  const ModelName: string := "gemini-2.5-flash"
  const NoResponseText: string := "No response generated."
  const ErrorText: string :=
    "Error: Unable to connect to the inference engine. Please check your network connection or API key configuration."

  /** One chunk of the context block: a `Source:` line and a `Content:`
      line, which carry the chunk's source label and content. */
  function RenderChunk(doc: DocumentChunk): (r: string)
    ensures "Source: " <= r
    ensures Contains(r, doc.source)
    ensures Contains(r, doc.content)
  {
    var r := "Source: " + doc.source + "\nContent: " + doc.content;
    assert r[8..8 + |doc.source|] == doc.source;
    ContainsAt(r, doc.source, 8);
    var off := 8 + |doc.source| + 10;
    assert r[off..off + |doc.content|] == doc.content;
    ContainsAt(r, doc.content, off);
    r
  }

  /** `retrievedDocs.map(...)`: one rendering per chunk, in order. */
  function RenderAll(docs: seq<DocumentChunk>): (r: seq<string>)
    ensures |r| == |docs|
    ensures forall i :: 0 <= i < |r| ==> r[i] == RenderChunk(docs[i])
  {
    seq(|docs|, i requires 0 <= i < |docs| => RenderChunk(docs[i]))
  }

  /** The rendered chunks, in order, separated by a blank line. Every
      chunk's rendering occurs in it, and it is empty only for no chunks. */
  function ContextString(docs: seq<DocumentChunk>): (r: string)
    ensures forall k :: 0 <= k < |docs| ==> Contains(r, RenderChunk(docs[k]))
    ensures r == "" <==> |docs| == 0
  {
    var parts := RenderAll(docs);
    JoinContainsAll(parts, "\n\n");
    assert forall k :: 0 <= k < |docs| ==> parts[k] == RenderChunk(docs[k]);
    assert |docs| > 0 ==> Contains(Join(parts, "\n\n"), parts[0]);
    Join(parts, "\n\n")
  }

  /** A single chunk renders alone; a longer list is its first chunk, a
      blank line, and the rendering of the rest. */
  lemma ContextStringShape(docs: seq<DocumentChunk>)
    requires |docs| >= 1
    ensures |docs| == 1 ==> ContextString(docs) == RenderChunk(docs[0])
    ensures |docs| >= 2 ==>
      ContextString(docs) == RenderChunk(docs[0]) + "\n\n" + ContextString(docs[1..])
  {
    assert RenderAll(docs)[1..] == RenderAll(docs[1..]);
  }

  /** n >= 1 chunks are joined by exactly n - 1 two-character separators. */
  lemma ContextStringLength(docs: seq<DocumentChunk>)
    requires |docs| >= 1
    ensures |ContextString(docs)| == TotalLength(RenderAll(docs)) + 2 * (|docs| - 1)
  {
  }

  /** Every chunk's source label and content occur in the context block. */
  lemma ContextMentionsChunk(docs: seq<DocumentChunk>, k: nat)
    requires k < |docs|
    ensures Contains(ContextString(docs), docs[k].source)
    ensures Contains(ContextString(docs), docs[k].content)
  {
    var d := docs[k];
    var block := RenderChunk(d);
    ContainsTrans(ContextString(docs), block, d.source);
    ContainsTrans(ContextString(docs), block, d.content);
  }

  /** The user-turn prompt: the context block under "Context Information:"
      and the question under "User Question:", with the template's own
      indentation. */
  function FinalPrompt(context: string, question: string): (p: string)
    ensures Contains(p, context)
    ensures Contains(p, question)
  {
    var head := "\n    Context Information:\n    ";
    var middle := "\n\n    User Question:\n    ";
    var p := head + context + middle + question + "\n  ";
    assert p[|head|..|head| + |context|] == context;
    ContainsAt(p, context, |head|);
    var off := |head| + |context| + |middle|;
    assert p[off..off + |question|] == question;
    ContainsAt(p, question, off);
    p
  }

  /** The request for `currentMessage`, built from the chunks it retrieves:
      the fixed model, and a prompt that embeds the context block of those
      chunks and the question. */
  function BuildRequest(currentMessage: string): (req: GenerationRequest)
    ensures req.model == ModelName
    ensures Contains(req.prompt, ContextString(RetrieveDocuments(currentMessage)))
    ensures Contains(req.prompt, currentMessage)
  {
    GenerationRequest(ModelName, FinalPrompt(ContextString(RetrieveDocuments(currentMessage)), currentMessage))
  }

  /** The prompt carries the question and the source label and content of
      every retrieved chunk. */
  lemma RequestGrounded(currentMessage: string, k: nat)
    requires k < |RetrieveDocuments(currentMessage)|
    ensures Contains(BuildRequest(currentMessage).prompt, currentMessage)
    ensures Contains(BuildRequest(currentMessage).prompt, RetrieveDocuments(currentMessage)[k].source)
    ensures Contains(BuildRequest(currentMessage).prompt, RetrieveDocuments(currentMessage)[k].content)
  {
    var docs := RetrieveDocuments(currentMessage);
    var ctx := ContextString(docs);
    var p := BuildRequest(currentMessage).prompt;
    ContextMentionsChunk(docs, k);
    ContainsTrans(p, ctx, docs[k].source);
    ContainsTrans(p, ctx, docs[k].content);
  }

  /** The `try`/`catch` return shaping: on success the generated text, or
      the fixed notice when it is empty or missing, with the retrieved
      chunks; on failure the fixed error text with no chunks. The answer
      text is never empty. */
  function Respond(retrievedDocs: seq<DocumentChunk>, outcome: GenerationOutcome): (a: RagAnswer)
    ensures a.text != ""
    ensures outcome.Failure? ==> a.text == ErrorText && a.retrievedDocs == []
    ensures outcome.Success? ==> a.retrievedDocs == retrievedDocs
    ensures outcome.Success? ==>
      a.text == (if outcome.text.Some? && outcome.text.value != "" then outcome.text.value else NoResponseText)
  {
    match outcome
    case Success(text) =>
      var shown := if text.Some? && text.value != "" then text.value else NoResponseText;
      RagAnswer(shown, retrievedDocs)
    case Failure =>
      RagAnswer(ErrorText, [])
  }

  /** `sendMessageToRAG(currentMessage, history)`: `history` is not used by
      the source and is left out; `generate` stands for the generation
      service. */
  function SendMessageToRag(currentMessage: string, generate: GenerationRequest -> GenerationOutcome): (a: RagAnswer)
    ensures a.text != ""
    ensures generate(BuildRequest(currentMessage)).Failure? ==>
      a == RagAnswer(ErrorText, [])
    ensures generate(BuildRequest(currentMessage)).Success? ==>
      a.retrievedDocs == RetrieveDocuments(currentMessage) && 1 <= |a.retrievedDocs| <= TopK
    ensures a == Respond(RetrieveDocuments(currentMessage), generate(BuildRequest(currentMessage)))
  {
    var docs := RetrieveDocuments(currentMessage);
    var prompt := FinalPrompt(ContextString(docs), currentMessage);
    Respond(docs, generate(GenerationRequest(ModelName, prompt)))
  }
}

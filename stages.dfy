/**
 * One pipeline stage of app.py (format_extraction, translate_to_malayalam):
 * build the two chat messages, call the completion provider with streaming
 * on, concatenate the streamed chunks, strip the reasoning tags, and turn any
 * raised error into a fixed prefix followed by the error's message.
 */
module Stages {
  import opened Sequences
  import opened Optional
  import opened ThinkTags

  datatype Stage = Format | Translate

  /** The content of one streamed chunk (`chunk.choices[0].delta.content`), None when absent. */
  type Chunk = Option<string>

  /**
   * What the provider call does: it streams chunks to the end, or something
   * raises (building the client, the request, or reading the stream), with
   * the error's message.
   */
  datatype Completion = Streamed(chunks: seq<Chunk>) | Raised(message: string)

  /** `Groq(api_key=api_key) if api_key else Groq()`: an empty key means the ambient credential. */
  datatype Credential = Ambient | ApiKey(key: string)

  /** The request a stage sends: credential, system message, user message. */
  datatype Request = Request(credential: Credential, system: string, user: string)

  function SystemInstruction(stage: Stage): string
  {
    match stage
    case Format =>
      "You are a language expert who formats the extraction. " +
      "Improve readability while maintaining the original structure."
    case Translate =>
      "You are a professional translator. Translate the following text " +
      "to Malayalam while maintaining the original meaning and structure. " +
      "Use Malayalam script."
  }

  function ErrorPrefix(stage: Stage): string
  {
    match stage
    case Format => "Error in formatting extraction: "
    case Translate => "Error in translation: "
  }

  /** The messages of a stage: its fixed instruction, then the input text verbatim. */
  function MakeRequest(stage: Stage, text: string, apiKey: string): (q: Request)
    ensures q.user == text && q.system == SystemInstruction(stage)
    ensures q.credential == Ambient <==> apiKey == ""
    ensures q.credential.ApiKey? ==> q.credential.key == apiKey
  {
    Request(if apiKey == "" then Ambient else ApiKey(apiKey), SystemInstruction(stage), text)
  }

  /** `content or ""`: an absent chunk contributes nothing. */
  function ContentOf(c: Chunk): string
  {
    match c
    case Some(s) => s
    case None => ""
  }

  /**
   * The chunks' contents in arrival order, absent ones counted as empty: no
   * chunks give the empty text, and the text is exactly as long as the
   * contents together.
   */
  function Assembled(chunks: seq<Chunk>): (r: string)
    ensures chunks == [] ==> r == ""
    ensures |r| == SumLengths(chunks)
  {
    if chunks == [] then ""
    else Assembled(chunks[..|chunks| - 1]) + ContentOf(chunks[|chunks| - 1])
  }

  /**
   * What a stage returns for a given provider outcome; it never raises. A
   * streamed reply comes back with no whitespace at either end and no longer
   * than what was streamed; a raised error comes back as the stage's prefix
   * followed by the error's message.
   */
  function StageOutput(stage: Stage, outcome: Completion): (r: string)
    ensures outcome.Streamed? ==> Trimmed(r) && |r| <= SumLengths(outcome.chunks)
    ensures outcome.Raised? ==>
              |r| == |ErrorPrefix(stage)| + |outcome.message| &&
              r[..|ErrorPrefix(stage)|] == ErrorPrefix(stage) &&
              r[|ErrorPrefix(stage)|..] == outcome.message
  {
    match outcome
    case Streamed(chunks) => RemoveThinkTags(Assembled(chunks))
    case Raised(message) => ErrorPrefix(stage) + message
  }

  /**
   * format_extraction (stage Format) and translate_to_malayalam (stage
   * Translate). The provider is a parameter: the request goes in, the
   * outcome of the remote call comes out.
   */
  method RunStage(stage: Stage, text: string, apiKey: string, provider: Request -> Completion)
    returns (r: string)
    ensures r == StageOutput(stage, provider(MakeRequest(stage, text, apiKey)))
  {
    var outcome := provider(MakeRequest(stage, text, apiKey));
    match outcome {
      case Raised(message) =>
        r := ErrorPrefix(stage) + message;
      case Streamed(chunks) =>
        var response := AssembleStream(chunks);
        r := RemoveThinkTags(response);
    }
  }

  /** The streaming loop: each chunk's content, or "" when it has none, appended in order. */
  method AssembleStream(chunks: seq<Chunk>) returns (response: string)
    ensures response == Assembled(chunks)
  {
    response := "";
    for i := 0 to |chunks|
      invariant response == Assembled(chunks[..i])
    {
      assert chunks[..i + 1][..i] == chunks[..i];
      response := response + ContentOf(chunks[i]);
    }
    assert chunks[..|chunks|] == chunks;
  }


  // ---------------------------------------------------------------------
  // Stream assembly

  /** Assembly is concatenation: splitting the stream anywhere splits the text there. */
  lemma {:induction false} AssembledAppend(a: seq<Chunk>, b: seq<Chunk>)
    ensures Assembled(a + b) == Assembled(a) + Assembled(b)
    decreases |b|
  {
    if b == [] {
      assert a + b == a;
    } else {
      var b' := b[..|b| - 1];
      var last := b[|b| - 1];
      assert (a + b)[..|a + b| - 1] == a + b';
      assert (a + b)[|a + b| - 1] == last;
      AssembledAppend(a, b');
      AppendAssoc(Assembled(a), Assembled(b'), ContentOf(last));
    }
  }

  /** An absent chunk anywhere in the stream changes nothing. */
  lemma AbsentChunkIgnored(a: seq<Chunk>, b: seq<Chunk>)
    ensures Assembled(a + [None] + b) == Assembled(a + b)
  {
    var absent: seq<Chunk> := [None];
    assert absent[..0] == [];
    assert Assembled(absent) == "";
    AssembledAppend(a, absent);
    assert Assembled(a + absent) == Assembled(a);
    AssembledAppend(a + absent, b);
    AssembledAppend(a, b);
  }

  /** The total length of the chunks' contents. */
  function SumLengths(chunks: seq<Chunk>): nat
  {
    if chunks == [] then 0 else SumLengths(chunks[..|chunks| - 1]) + |ContentOf(chunks[|chunks| - 1])|
  }

  // ---------------------------------------------------------------------
  // Outcomes

  /** A raised error becomes the stage's fixed prefix and the message, and is not propagated. */
  lemma ErrorMapped(message: string)
    ensures StageOutput(Format, Raised(message)) == "Error in formatting extraction: " + message
    ensures StageOutput(Translate, Raised(message)) == "Error in translation: " + message
  {
  }

  lemma PrefixShape(stage: Stage)
    ensures |ErrorPrefix(stage)| > 0 && ErrorPrefix(stage)[0] == 'E'
    ensures '<' !in ErrorPrefix(stage)
  {
    var p := ErrorPrefix(stage);
    assert forall i :: 0 <= i < |p| ==> p[i] != '<';
  }

  lemma ErrorTextTrimmed(stage: Stage, message: string)
    requires message != [] && !IsWhitespace(message[|message| - 1])
    ensures Trimmed(ErrorPrefix(stage) + message)
  {
    PrefixShape(stage);
    var text := ErrorPrefix(stage) + message;
    assert text[0] == 'E';
    assert text[|text| - 1] == message[|message| - 1];
  }

  /**
   * The returned string does not say whether the call failed: for an error
   * message with no '<' and no trailing whitespace, a reply that streams
   * exactly the error text yields the same string as the error itself.
   */
  lemma FailureIndistinguishable(stage: Stage, message: string)
    requires message != [] && '<' !in message && !IsWhitespace(message[|message| - 1])
    ensures StageOutput(stage, Streamed([Some(ErrorPrefix(stage) + message)])) == StageOutput(stage, Raised(message))
  {
    var text := ErrorPrefix(stage) + message;
    assert [Some(text)][..0] == [];
    assert Assembled([Some(text)]) == text;
    PrefixShape(stage);
    assert '<' !in text;
    TagShapes();
    NoOccurrenceWithoutAngle(Open, text);
    NoThinkTagOnlyStrips(text);
    ErrorTextTrimmed(stage, message);
  }
}

/**
 * backend/chat.py: the document context handed to the chat assistant and
 * the message list sent with each question. The chat model is a parameter:
 * None when no credentials are set, otherwise a function from the message
 * list to the reply text or the text of the exception raised.
 */
module Chat {
  import opened Wrappers
  import opened Text
  import opened Models
  import opened StateManager
  import opened Seqs

  const EmptyDocument := "[The document is currently empty.]"
  const ContextHeader := "CURRENT PROJECT DRAFT:\n\n"
  const NoContent := "[No content written for this section yet]"

  /** A section's text as the assistant sees it: trimmed, or the
      placeholder when blank. */
  function ContentOf(sec: Section): string {
    var c := Trim(sec.userData.content);
    if c == [] then NoContent else c
  }

  function Block(sec: Section): string {
    "## SECTION: " + sec.meta.title + "\n" + ContentOf(sec) + "\n\n"
  }

  /** The section blocks, in order. */
  function Blocks(sections: seq<Section>): string {
    FlatMap(sections, Block)
  }

  /** `build_project_context`. */
  function ContextSpec(sections: seq<Section>): string {
    if sections == [] then EmptyDocument else ContextHeader + Blocks(sections)
  }

  /** `build_project_context`: the notice for an empty document, otherwise
      the header followed by the sections' blocks. */
  method BuildProjectContext(sections: seq<Section>) returns (text: string)
    ensures text == ContextSpec(sections)
  {
    if |sections| == 0 {
      return EmptyDocument;
    }
    text := AppendBlocks(ContextHeader, sections);
  }

  /** The loop of `build_project_context`: appends each section's block to
      `start`, in order. */
  method AppendBlocks(start: string, sections: seq<Section>) returns (text: string)
    ensures text == start + Blocks(sections)
  {
    text := start;
    var i := 0;
    while i < |sections|
      invariant 0 <= i <= |sections|
      invariant text == start + Blocks(sections[..i])
    {
      var sec := sections[i];
      var content := Trim(sec.userData.content);
      if content == [] {
        content := NoContent;
      }
      var block := "## SECTION: " + sec.meta.title + "\n" + content + "\n\n";
      BlockIs(sec, content);
      ghost var done := sections[..i];
      AppendBlock(start, done, sec);
      text := text + block;
      i := i + 1;
      assert sections[..i] == done + [sec];
    }
    assert sections[..i] == sections;
  }

  /** The block the loop builds from the trimmed text, or the placeholder. */
  lemma BlockIs(sec: Section, content: string)
    requires content == if Trim(sec.userData.content) == [] then NoContent else Trim(sec.userData.content)
    ensures "## SECTION: " + sec.meta.title + "\n" + content + "\n\n" == Block(sec)
  {
  }

  /** Adding one section's block to the accumulated text. */
  lemma AppendBlock(h: string, done: seq<Section>, sec: Section)
    ensures h + Blocks(done + [sec]) == (h + Blocks(done)) + Block(sec)
  {
    FlatMapSnoc(done, sec, Block);
  }

  /** A section's text is never empty: blank text becomes the placeholder,
      anything else is kept without its surrounding whitespace. */
  lemma ContentOfCases(sec: Section)
    ensures ContentOf(sec) != []
    ensures AllSpace(sec.userData.content) ==> ContentOf(sec) == NoContent
    ensures !AllSpace(sec.userData.content) ==>
      ContentOf(sec) == Trim(sec.userData.content)
      && !IsSpace(ContentOf(sec)[0]) && !IsSpace(ContentOf(sec)[|ContentOf(sec)| - 1])
  {
    TrimEmptyIffBlank(sec.userData.content);
    TrimShape(sec.userData.content);
  }

  lemma BlocksAppend(a: seq<Section>, b: seq<Section>)
    ensures Blocks(a + b) == Blocks(a) + Blocks(b)
  {
    FlatMapAppend(a, b, Block);
  }

  lemma BlocksSingle(sec: Section)
    ensures Blocks([sec]) == Block(sec)
  {
    FlatMapSingle(sec, Block);
  }

  /** An empty document gives the fixed notice; otherwise the header is
      followed by the first section's block and then the others' blocks, in
      order. */
  lemma ContextShape(sections: seq<Section>)
    ensures sections == [] ==> ContextSpec(sections) == "[The document is currently empty.]"
    ensures sections != [] ==>
      ContextSpec(sections) == "CURRENT PROJECT DRAFT:\n\n" + Block(sections[0]) + Blocks(sections[1..])
  {
    if sections != [] {
      BlocksAppend(sections[..1], sections[1..]);
      assert sections[..1] + sections[1..] == sections;
      assert sections[..1] == [sections[0]];
      BlocksSingle(sections[0]);
    }
  }

  lemma BlocksSplitAt(sections: seq<Section>, i: nat)
    requires i < |sections|
    ensures Blocks(sections) == Blocks(sections[..i]) + Block(sections[i]) + Blocks(sections[i + 1..])
  {
    FlatMapSplitAt(sections, i, Block);
  }

  /** Every section's block, with its title, appears in the context. */
  lemma ContextHasEverySection(sections: seq<Section>, i: nat)
    requires i < |sections|
    ensures Contains(ContextSpec(sections), Block(sections[i]))
  {
    BlocksSplitAt(sections, i);
    var pre, blk, post := Blocks(sections[..i]), Block(sections[i]), Blocks(sections[i + 1..]);
    InfixWithHeader(ContextHeader, pre, blk, post);
  }

  lemma InfixWithHeader(h: string, pre: string, q: string, post: string)
    ensures Contains(h + (pre + q + post), q)
  {
    assert h + (pre + q + post) == (h + pre) + q + post;
    ContainsInfix(h + pre, q, post);
  }

  /** One entry of the chat history. */
  datatype ChatEntry = ChatEntry(role: string, content: string)

  datatype Message = SystemMessage(content: string) | HumanMessage(content: string)

  /** The assistant's instructions, up to the place of the document context. */
  const PromptHead: string :=
    "You are a helpful Project Manager Assistant. \n"
    + "    You have access to the current draft of the Project Charter below.\n"
    + "    \n"
    + "    INSTRUCTIONS:\n"
    + "    1. Answer the user's questions based PRIMARILY on the 'CURRENT PROJECT DRAFT' provided below.\n"
    + "    2. If the user asks about the purpose of the document, summarize the draft.\n"
    + "    3. If the answer is not in the draft, say \"I don't see that information in your current draft\" and suggest where they might add it.\n"
    + "    \n"
    + "    "

  /** What follows the document context in the system prompt. */
  const PromptTail: string := "\n    "

  /** The assistant's instructions with the document context in place. */
  function SystemPrompt(context: string): string {
    PromptHead + context + PromptTail
  }

  /** A "user" entry is the human's; every other role is replayed as a
      system message. */
  function ToMessage(e: ChatEntry): Message {
    if e.role == "user" then HumanMessage(e.content) else SystemMessage(e.content)
  }

  /** The history replayed as messages, one per entry. */
  function ToMessages(history: seq<ChatEntry>): (r: seq<Message>)
    ensures |r| == |history|
    ensures forall k :: 0 <= k < |history| ==> r[k] == ToMessage(history[k])
  {
    if history == [] then [] else [ToMessage(history[0])] + ToMessages(history[1..])
  }

  function MessagesSpec(history: seq<ChatEntry>, sections: seq<Section>): seq<Message> {
    [SystemMessage(SystemPrompt(ContextSpec(sections)))] + ToMessages(history)
  }

  /** The message list of `get_chat_response`. */
  method BuildMessages(history: seq<ChatEntry>, sections: seq<Section>) returns (messages: seq<Message>)
    ensures messages == MessagesSpec(history, sections)
  {
    var context := BuildProjectContext(sections);
    var replayed := ReplayHistory(history);
    messages := [SystemMessage(SystemPrompt(context))] + replayed;
  }

  /** The history loop of `get_chat_response`. */
  method ReplayHistory(history: seq<ChatEntry>) returns (messages: seq<Message>)
    ensures messages == ToMessages(history)
  {
    messages := [];
    var i := 0;
    while i < |history|
      invariant 0 <= i <= |history| && |messages| == i
      invariant forall k :: 0 <= k < i ==> messages[k] == ToMessage(history[k])
    {
      if history[i].role == "user" {
        messages := messages + [HumanMessage(history[i].content)];
      } else {
        messages := messages + [SystemMessage(history[i].content)];
      }
      i := i + 1;
    }
  }

  /** The system prompt comes first and carries the document context; then
      one message per history entry, in order, with the entry's text, human
      exactly for the "user" role. */
  lemma MessagesShape(history: seq<ChatEntry>, sections: seq<Section>)
    ensures var m := MessagesSpec(history, sections);
      |m| == |history| + 1 && m[0].SystemMessage?
      && Contains(m[0].content, ContextSpec(sections))
      && forall k :: 0 <= k < |history| ==>
           m[k + 1].content == history[k].content && (m[k + 1].HumanMessage? <==> history[k].role == "user")
  {
    var m, tail := MessagesSpec(history, sections), ToMessages(history);
    SystemPromptHasContext(ContextSpec(sections));
    assert m[0] == SystemMessage(SystemPrompt(ContextSpec(sections)));
    forall k | 0 <= k < |history|
      ensures m[k + 1].content == history[k].content && (m[k + 1].HumanMessage? <==> history[k].role == "user")
    {
      assert m[k + 1] == tail[k] == ToMessage(history[k]);
    }
  }

  /** The document context sits inside the system prompt. */
  lemma SystemPromptHasContext(context: string)
    ensures Contains(SystemPrompt(context), context)
  {
    ContainsInfix(PromptHead, context, PromptTail);
  }

  const NoKeysReply := "\U{26A0}\U{FE0F} I can't help you yet! Please enter your **OpenAI Keys** in the sidebar settings."
  const ErrorPrefix := "Error connecting to LLM: "

  /** `get_chat_response`. */
  method GetChatResponse(history: seq<ChatEntry>, sections: seq<Section>,
                         llm: Option<seq<Message> -> LlmOutcome<string>>) returns (reply: string)
    ensures llm.None? ==> reply == NoKeysReply
    ensures llm.Some? && llm.value(MessagesSpec(history, sections)).Answered? ==>
      reply == llm.value(MessagesSpec(history, sections)).value
    ensures llm.Some? && llm.value(MessagesSpec(history, sections)).Raised? ==>
      reply == ErrorPrefix + llm.value(MessagesSpec(history, sections)).error
  {
    if llm.None? {
      return NoKeysReply;
    }
    var messages := BuildMessages(history, sections);
    match llm.value(messages) {
      case Answered(content) => reply := content;
      case Raised(e) => reply := ErrorPrefix + e;
    }
  }
}

/** Prompt assembly (app/chat/prompt.py): the loops behind the context block and the trimmed history. */
module Prompt {
  import opened Wrappers
  import opened Text
  import opened PromptSpec

  const EMPTY_CONTEXT_PLACEHOLDER := "(未找到相关参考资料)"

  datatype Role = System | User | Assistant

  datatype Message = Message(role: Role, content: string)

  function Contents(messages: seq<Message>): (r: seq<string>)
    ensures |r| == |messages| && forall i :: 0 <= i < |messages| ==> r[i] == messages[i].content
  {
    seq(|messages|, i requires 0 <= i < |messages| => messages[i].content)
  }

  /** Renders the longest prefix of the chunks that fits the budget. */
  method FormatContextChunks(chunks: seq<ContextChunk>, maxTokens: int) returns (text: string, kept: nat)
    ensures LongestPrefix(Entries(chunks), maxTokens, kept)
    ensures text == if kept == 0 then EMPTY_CONTEXT_PLACEHOLDER else Join("\n\n", Entries(chunks)[..kept])
  {
    if chunks == [] {
      return EMPTY_CONTEXT_PLACEHOLDER, 0;
    }
    var parts: seq<string> := [];
    var used := 0;
    var i := 0;
    ghost var entries := Entries(chunks);
    while i < |chunks|
      invariant 0 <= i <= |chunks|
      invariant parts == entries[..i] && used == Cost(parts)
      invariant i == 0 || used <= maxTokens
    {
      var entry := Entry(i + 1, chunks[i]);
      var t := Tokens(entry);
      CostBack(entries, i);
      if used + t > maxTokens {
        break;
      }
      parts := parts + [entry];
      used := used + t;
      i := i + 1;
    }
    kept := i;
    PrefixIsLongest(entries, maxTokens, i);
    text := if parts != [] then Join("\n\n", parts) else EMPTY_CONTEXT_PLACEHOLDER;
  }

  /** The rendered system message, the longest suffix of the history that fits, and the query. */
  method AssemblePrompt(w: CharClass, systemPrompt: Option<string>, vars: map<string, string>, history: seq<Message>,
                        query: string, historyBudget: int)
    returns (messages: seq<Message>, start: nat)
    ensures LongestSuffix(Contents(history), historyBudget, start)
    ensures messages == [Message(System, Render(w, Template(systemPrompt), vars))] + history[start..] + [Message(User, query)]
  {
    var rendered := Render(w, Template(systemPrompt), vars);
    messages := [Message(System, rendered)];
    var historyTokens := 0;
    var trimmed: seq<Message> := [];
    var i := |history|;
    ghost var contents := Contents(history);
    while i > 0
      invariant 0 <= i <= |history|
      invariant trimmed == history[i..] && historyTokens == Cost(contents[i..])
      invariant i == |history| || historyTokens <= historyBudget
    {
      var msg := history[i - 1];
      var t := Tokens(msg.content);
      CostFront(contents, i - 1);
      if historyTokens + t > historyBudget {
        break;
      }
      trimmed := [msg] + trimmed;
      historyTokens := historyTokens + t;
      i := i - 1;
    }
    start := i;
    SuffixIsLongest(contents, historyBudget, i);
    messages := messages + trimmed;
    messages := messages + [Message(User, query)];
  }

  lemma CostBack(parts: seq<string>, i: nat)
    requires i < |parts|
    ensures parts[..i + 1] == parts[..i] + [parts[i]]
    ensures Cost(parts[..i + 1]) == Cost(parts[..i]) + Tokens(parts[i])
  {
    assert parts[..i + 1][..i] == parts[..i];
  }

  lemma CostFront(parts: seq<string>, i: nat)
    requires i < |parts|
    ensures Cost(parts[i..]) == Tokens(parts[i]) + Cost(parts[i + 1..])
  {
    assert parts[i..] == [parts[i]] + parts[i + 1..];
    CostConcat([parts[i]], parts[i + 1..]);
    assert [parts[i]][..0] == [];
  }
}

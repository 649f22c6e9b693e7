/** The enrichment provider of the final manager: the deterministic mock
    language model and the two prompts built from a record. Both calls only
    read the record they are given (records are values here).
 */
module LlmAgent {
  import opened Wrappers
  import opened Text
  import opened Models

  // ---------------------------------------------------------------------------
  // Prompts

  /** The first line of the summarisation prompt, word by word. */
  const SummaryLead: seq<string> :=
    ["Please", "provide", "a", "50-word", "summary", "of", "the", "following", "knowledge", "entry:"]

  /** "Please provide a 50-word summary of the following knowledge entry:" */
  const SummaryLeadLine :=
    "Please" + " " + ("provide" + " " + ("a" + " " + ("50-word" + " " + ("summary" + " " + ("of" + " "
    + ("the" + " " + ("following" + " " + ("knowledge" + " " + "entry:"))))))))

  lemma SummaryLeadLineIsJoin()
    ensures SummaryLeadLine == Join(SummaryLead, " ")
  {
    var w := SummaryLead;
    assert Join(w[9..], " ") == "entry:";
    assert Join(w[8..], " ") == "knowledge" + " " + Join(w[9..], " ");
    assert Join(w[7..], " ") == "following" + " " + Join(w[8..], " ");
    assert Join(w[6..], " ") == "the" + " " + Join(w[7..], " ");
    assert Join(w[5..], " ") == "of" + " " + Join(w[6..], " ");
    assert Join(w[4..], " ") == "summary" + " " + Join(w[5..], " ");
    assert Join(w[3..], " ") == "50-word" + " " + Join(w[4..], " ");
    assert Join(w[2..], " ") == "a" + " " + Join(w[3..], " ");
    assert Join(w[1..], " ") == "provide" + " " + Join(w[2..], " ");
    assert Join(w, " ") == "Please" + " " + Join(w[1..], " ");
  }

  /** The lead line, then "Title: <title>\nContent: <content>". */
  function SummaryPrompt(e: KnowledgeEntry): string {
    SummaryLeadLine + "\n" + Labelled(e.title, e.content)
  }

  const PriorityLead :=
    "Analyze the following task and context to assign a priority level (low, medium, or high). "
    + "Only return the priority level string itself.\nTask: "
  const DueLabel := " (Due: "
  const DescriptionLabel := ")\nDescription: "
  const ContextLabel := "\nLinked Context: "

  function PriorityPrompt(t: Task, linkedContent: string): string {
    PriorityLead + t.title + DueLabel + t.dueDate + DescriptionLabel + t.description
    + ContextLabel + linkedContent
  }

  /** The prioritisation prompt carries the title, the due date, the
      description and the linked context verbatim. */
  lemma PriorityPromptEmbeds(t: Task, linkedContent: string)
    ensures var p := PriorityPrompt(t, linkedContent);
            Contains(p, t.title) && Contains(p, t.dueDate)
            && Contains(p, t.description) && Contains(p, linkedContent)
  {
    ContainsEachOfFour(PriorityLead, t.title, DueLabel, t.dueDate,
                       DescriptionLabel, t.description, ContextLabel, linkedContent);
  }

  /** The summarisation prompt carries the title and the content verbatim. */
  lemma SummaryPromptEmbeds(e: KnowledgeEntry)
    ensures Contains(SummaryPrompt(e), e.title) && Contains(SummaryPrompt(e), e.content)
  {
    LabelledEmbeds(SummaryLeadLine + "\n", e.title, e.content);
  }

  lemma SummaryLeadIsTokens()
    ensures forall i | 0 <= i < |SummaryLead| :: |SummaryLead[i]| > 0 && AllInRun(SummaryLead[i], NonSpace)
  {
  }

  /** The summarisation prompt has twelve fixed tokens ("Please" first) besides
      the tokens of the title and of the content. */
  lemma SummaryPromptWords(e: KnowledgeEntry)
    ensures var w := Words(SummaryPrompt(e));
            |w| == 12 + |Words(e.title)| + |Words(e.content)| && w[0] == "Please"
  {
    SummaryLeadIsTokens();
    SummaryLeadLineIsJoin();
    WordsOfJoin(SummaryLead, '\n', Labelled(e.title, e.content));
    LabelledWords(e.title, e.content);
  }

  /** The prioritisation prompt is 181 characters of fixed text plus the four fields. */
  lemma PriorityPromptLength(t: Task, linkedContent: string)
    ensures |PriorityPrompt(t, linkedContent)|
            == 181 + |t.title| + |t.dueDate| + |t.description| + |linkedContent|
  {
  }

  // ---------------------------------------------------------------------------
  // The mock model

  predicate MentionsUrgency(prompt: string) {
    var p := Lower(prompt);
    Contains(p, "critical") || Contains(p, "deadline") || Contains(p, "urgent")
  }

  const SummaryOpening := "AI Summary: A concise overview of the document, focusing on "
  const SummaryCovering := " and covering "
  const SummaryClosing := " unique tokens."

  function SummaryText(focus: string, tokenCount: nat): string {
    SummaryOpening + focus + SummaryCovering + NatToString(tokenCount) + SummaryClosing
  }

  /** The "summarize" reply of the mock: it names the first token and the
      token count; a prompt without tokens raises IndexError. */
  function MockSummarize(prompt: string): (r: Result<string>)
    ensures r.Failure? <==> |Words(prompt)| == 0
    ensures r.Failure? ==> r.error == IndexError
    ensures r.Success? ==> r.value == SummaryText(Words(prompt)[0], |Words(prompt)|)
  {
    var tokens := Words(prompt);
    if |tokens| == 0 then Failure(IndexError)
    else Success(SummaryText(tokens[0], |tokens|))
  }

  predicate IsLevel(p: string) {
    p == "low" || p == "medium" || p == "high"
  }

  /** The "prioritize" reply of the mock: "high" exactly when an urgency word
      occurs; otherwise "medium" exactly for prompts over 200 characters,
      "low" for the rest. */
  function MockPrioritize(prompt: string): (r: string)
    ensures IsLevel(r)
    ensures r == "high" <==> MentionsUrgency(prompt)
    ensures r == "medium" <==> !MentionsUrgency(prompt) && |prompt| > 200
    ensures r == "low" <==> !MentionsUrgency(prompt) && |prompt| <= 200
  {
    if MentionsUrgency(prompt) then "high"
    else if |prompt| > 200 then "medium"
    else "low"
  }

  /** `_mock_llm_call(prompt, task)`: dispatches on the kind of request; an
      unknown kind yields "mock_error". */
  function MockLlmCall(prompt: string, kind: string): (r: Result<string>)
    ensures kind == "summarize" ==> r == MockSummarize(prompt)
    ensures kind == "prioritize" ==> r == Success(MockPrioritize(prompt))
    ensures kind != "summarize" && kind != "prioritize" ==> r == Success("mock_error")
  {
    if kind == "summarize" then MockSummarize(prompt)
    else if kind == "prioritize" then Success(MockPrioritize(prompt))
    else Success("mock_error")
  }

  /** `summarize_entry`: the mock's reply to the summarisation prompt, which
      never fails; stated in closed form by `SummarizeEntryIsMockReply`. */
  function SummarizeEntry(e: KnowledgeEntry): (r: string)
    ensures r != ""
  {
    SummaryText("Please", 12 + |Words(e.title)| + |Words(e.content)|)
  }

  /** The reply to the summarisation prompt of an entry always succeeds, focuses
      on "Please" (the first prompt word) and counts the twelve fixed tokens
      plus the tokens of the title and of the content. */
  lemma SummarizeEntryIsMockReply(e: KnowledgeEntry)
    ensures MockSummarize(SummaryPrompt(e)) == Success(SummarizeEntry(e))
  {
    var p, n := SummaryPrompt(e), 12 + |Words(e.title)| + |Words(e.content)|;
    assert |Words(p)| == n && Words(p)[0] == "Please" by {
      SummaryPromptWords(e);
    }
    MockSummaryReply(p, "Please", n);
  }

  lemma MockSummaryReply(prompt: string, focus: string, n: nat)
    requires |Words(prompt)| == n > 0 && Words(prompt)[0] == focus
    ensures MockSummarize(prompt) == Success(SummaryText(focus, n))
  {
  }

  /** `prioritize_task`: the mock's level for the prioritisation prompt. */
  function PrioritizeTask(t: Task, linkedContent: string): (r: string)
    ensures IsLevel(r)
    ensures r == "high" <==> MentionsUrgency(PriorityPrompt(t, linkedContent))
  {
    MockPrioritize(PriorityPrompt(t, linkedContent))
  }

  /** A task is prioritised "low" only when its title, due date, description
      and linked context together hold at most 19 characters. */
  lemma LowOnlyForShortTasks(t: Task, linkedContent: string)
    requires PrioritizeTask(t, linkedContent) == "low"
    ensures |t.title| + |t.dueDate| + |t.description| + |linkedContent| <= 19
  {
    PriorityPromptLength(t, linkedContent);
  }
}

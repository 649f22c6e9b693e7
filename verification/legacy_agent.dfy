/** The earlier, stand-alone enrichment agent. It has no stored enrichment
    flags of its own: on loading it infers "summarised" from a non-empty
    summary and "prioritised" from a priority other than "medium". Loading
    keeps a stored id and timestamp as they are (absent ones stay absent).
 */
module LegacyAgent {
  import opened Wrappers
  import opened Text
  import opened Seqs
  import opened Stored

  datatype LegacyEntry = LegacyEntry(
    id: Option<string>,
    title: string,
    content: string,
    tags: seq<string>,
    createdAt: Option<string>,
    summary: Option<string>,
    isSummarized: bool)

  datatype LegacyTask = LegacyTask(
    id: Option<string>,
    title: string,
    description: string,
    dueDate: string,
    status: Option<string>,
    priority: string,
    knowledgeLinkId: Option<string>,
    createdAt: Option<string>,
    isPrioritized: bool)

  /** `bool(summary)`: a summary that is present and non-empty. */
  predicate HasSummary(summary: Option<string>) {
    summary.Some? && summary.value != ""
  }

  // ---------------------------------------------------------------------------
  // from_dict / to_dict

  /** `KnowledgeEntry.from_dict`: KeyError without title or content; the flag is
      inferred from the summary, whatever flag was stored. */
  function EntryFromRecord(d: KnowledgeRecord): (r: Result<LegacyEntry>)
    ensures d.title.Missing? ==> r == Failure(KeyError("title"))
    ensures d.title.Given? && d.content.Missing? ==> r == Failure(KeyError("content"))
    ensures r.Success? <==> d.title.Given? && d.content.Given?
    ensures r.Success? ==> && r.value.title == d.title.value && r.value.content == d.content.value
                           && r.value.id == d.id.Get() && r.value.createdAt == d.createdAt.Get()
                           && r.value.summary == d.summary.Get()
                           && r.value.tags == (if d.tags.Given? then d.tags.value else [])
                           && (r.value.isSummarized <==> HasSummary(d.summary.Get()))
  {
    var title :- d.title.Require("title");
    var content :- d.content.Require("content");
    Success(LegacyEntry(d.id.Get(), title, content, d.tags.GetOr([]), d.createdAt.Get(),
                        d.summary.Get(), HasSummary(d.summary.Get())))
  }

  /** `to_dict()`: the object's fields, the flag included. */
  function EntryToRecord(e: LegacyEntry): (d: KnowledgeRecord)
    ensures d.id.Get() == e.id && d.summary.Get() == e.summary && d.isSummarized == Given(e.isSummarized)
    ensures d.title == Given(e.title) && d.content == Given(e.content) && d.tags == Given(e.tags)
    ensures d.createdAt.Get() == e.createdAt
  {
    KnowledgeRecord(Put(e.id), Given(e.title), Given(e.content), Given(e.tags), Put(e.createdAt),
                    Put(e.summary), Given(e.isSummarized))
  }

  /** An entry survives saving and loading exactly when its flag agrees with
      its summary; in particular every entry the agent has summarised does. */
  lemma EntryRoundTrip(e: LegacyEntry)
    ensures EntryFromRecord(EntryToRecord(e)) == Success(e) <==> (e.isSummarized <==> HasSummary(e.summary))
  {
  }

  /** `Task.from_dict`: KeyError without title, description or due date;
      AttributeError when the priority is absent (`None.lower()`); the flag is
      inferred as "the lowercased priority is not medium". */
  function TaskFromRecord(d: TaskRecord): (r: Result<LegacyTask>)
    ensures d.title.Missing? ==> r == Failure(KeyError("title"))
    ensures d.title.Given? && d.description.Missing? ==> r == Failure(KeyError("description"))
    ensures d.title.Given? && d.description.Given? && d.dueDate.Missing? ==> r == Failure(KeyError("due_date"))
    ensures d.title.Given? && d.description.Given? && d.dueDate.Given? && d.priority.Missing?
            ==> r == Failure(AttributeError)
    ensures r.Success? <==> d.title.Given? && d.description.Given? && d.dueDate.Given? && d.priority.Given?
    ensures r.Success? ==> && r.value.title == d.title.value && r.value.description == d.description.value
                           && r.value.dueDate == d.dueDate.value && r.value.createdAt == d.createdAt.Get()
                           && r.value.priority == d.priority.value
                           && r.value.status == d.status.Get() && r.value.id == d.id.Get()
                           && r.value.knowledgeLinkId == d.knowledgeLinkId.Get()
                           && (r.value.isPrioritized <==> Lower(d.priority.value) != "medium")
  {
    var title :- d.title.Require("title");
    var description :- d.description.Require("description");
    var dueDate :- d.dueDate.Require("due_date");
    if d.priority.Missing? then Failure(AttributeError)
    else
      var priority := d.priority.value;
      Success(LegacyTask(d.id.Get(), title, description, dueDate, d.status.Get(), priority,
                         d.knowledgeLinkId.Get(), d.createdAt.Get(), Lower(priority) != "medium"))
  }

  function TaskToRecord(t: LegacyTask): (d: TaskRecord)
    ensures d.priority == Given(t.priority) && d.isPrioritized == Given(t.isPrioritized)
    ensures d.status.Get() == t.status && d.id.Get() == t.id
    ensures d.title == Given(t.title) && d.description == Given(t.description) && d.dueDate == Given(t.dueDate)
    ensures d.knowledgeLinkId.Get() == t.knowledgeLinkId && d.createdAt.Get() == t.createdAt
  {
    TaskRecord(Put(t.id), Given(t.title), Given(t.description), Given(t.dueDate), Put(t.status),
               Given(t.priority), Put(t.knowledgeLinkId), Put(t.createdAt), Given(t.isPrioritized))
  }

  /** A task survives saving and loading exactly when its flag agrees with
      "priority is not medium" (lowercased). */
  lemma TaskRoundTrip(t: LegacyTask)
    ensures TaskFromRecord(TaskToRecord(t)) == Success(t) <==> (t.isPrioritized <==> Lower(t.priority) != "medium")
  {
  }

  /** `Task.from_dict` as evidently intended: the stored flag is read back
      (absent means false), as the final manager does. */
  function TaskFromRecordKeepingFlag(d: TaskRecord): (r: Result<LegacyTask>)
    ensures r.Success? <==> d.title.Given? && d.description.Given? && d.dueDate.Given? && d.priority.Given?
    ensures r.Success? ==> r.value.isPrioritized == (d.isPrioritized.Given? && d.isPrioritized.value)
    ensures forall t :: d == TaskToRecord(t) ==> r == Success(t)
  {
    var title :- d.title.Require("title");
    var description :- d.description.Require("description");
    var dueDate :- d.dueDate.Require("due_date");
    if d.priority.Missing? then Failure(AttributeError)
    else
      Success(LegacyTask(d.id.Get(), title, description, dueDate, d.status.Get(), d.priority.value,
                         d.knowledgeLinkId.Get(), d.createdAt.Get(), d.isPrioritized.GetOr(false)))
  }

  // ---------------------------------------------------------------------------
  // mock_llm_call

  const LegacySummaryOpening := "A concise AI summary: This entry covers important points related to "
  const LegacySummaryMiddle := " and contains "
  const LegacySummaryClosing := " characters of original data."

  function LegacySummaryText(focus: string, length: nat): string {
    LegacySummaryOpening + focus + LegacySummaryMiddle + NatToString(length) + LegacySummaryClosing
  }

  /** The "summarize" reply: names the THIRD whitespace token and the prompt's
      length in characters; IndexError when the prompt has fewer than three tokens. */
  function LegacyMockSummarize(prompt: string): (r: Result<string>)
    ensures r.Failure? <==> |Words(prompt)| < 3
    ensures r.Failure? ==> r.error == IndexError
    ensures r.Success? ==> r.value == LegacySummaryText(Words(prompt)[2], |prompt|)
  {
    var tokens := Words(prompt);
    if |tokens| < 3 then Failure(IndexError)
    else Success(LegacySummaryText(tokens[2], |prompt|))
  }

  predicate LegacyUrgent(prompt: string) {
    var p := Lower(prompt);
    Contains(p, "deadline") || Contains(p, "critical") || Contains(p, "due date")
  }

  /** The "prioritize" reply: "high" exactly on "deadline", "critical" or
      "due date" in any case; otherwise "medium" exactly for prompts over 300
      characters, "low" for the rest. */
  function LegacyMockPrioritize(prompt: string): (r: string)
    ensures r == "high" <==> LegacyUrgent(prompt)
    ensures r == "medium" <==> !LegacyUrgent(prompt) && |prompt| > 300
    ensures r == "low" <==> !LegacyUrgent(prompt) && |prompt| <= 300
  {
    if LegacyUrgent(prompt) then "high"
    else if |prompt| > 300 then "medium"
    else "low"
  }

  /** `mock_llm_call(prompt, task)`: dispatch on the kind; an unknown kind
      yields "Error: Unknown task". */
  function LegacyMockLlmCall(prompt: string, kind: string): (r: Result<string>)
    ensures kind == "summarize" ==> r == LegacyMockSummarize(prompt)
    ensures kind == "prioritize" ==> r == Success(LegacyMockPrioritize(prompt))
    ensures kind != "summarize" && kind != "prioritize" ==> r == Success("Error: Unknown task")
  {
    if kind == "summarize" then LegacyMockSummarize(prompt)
    else if kind == "prioritize" then Success(LegacyMockPrioritize(prompt))
    else Success("Error: Unknown task")
  }

  /** Summarising an entry fails exactly when neither its title nor its
      content has a token: the prompt is then only the two labels. */
  lemma SummaryFailsOnlyForBlankEntries(e: LegacyEntry)
    ensures LegacyMockSummarize(Labelled(e.title, e.content)).Failure?
            <==> Words(e.title) == [] && Words(e.content) == []
  {
    LabelledWords(e.title, e.content);
  }

  // ---------------------------------------------------------------------------
  // summarize_new_entries

  function SummarizeEntry(e: LegacyEntry): Result<string> {
    LegacyMockSummarize(Labelled(e.title, e.content))
  }

  predicate SummaryFails(e: LegacyEntry) {
    !e.isSummarized && SummarizeEntry(e).Failure?
  }

  function SummarizeOne(e: LegacyEntry): LegacyEntry {
    if e.isSummarized || SummarizeEntry(e).Failure? then e
    else e.(summary := Some(SummarizeEntry(e).value), isSummarized := true)
  }

  /** `summarize_new_entries`. The run stops with IndexError when some entry
      to summarise has a blank title and content; otherwise every entry ends
      summarised (each already summarised entry untouched, each other one
      given its summary, nothing else changed) and the flag says whether any
      entry was summarised. */
  function SummarizeNewEntries(ks: seq<LegacyEntry>): (r: Result<(seq<LegacyEntry>, bool)>)
    ensures r.Failure? <==> exists i :: 0 <= i < |ks| && SummaryFails(ks[i])
    ensures r.Failure? ==> r.error == IndexError
    ensures r.Success? ==> |r.value.0| == |ks|
    ensures r.Success? ==> forall i :: 0 <= i < |ks| ==> r.value.0[i].isSummarized
    ensures r.Success? ==> forall i :: 0 <= i < |ks| && ks[i].isSummarized ==> r.value.0[i] == ks[i]
    ensures r.Success? ==> forall i :: 0 <= i < |ks| && !ks[i].isSummarized
                             ==> && HasSummary(r.value.0[i].summary)
                                 && LegacyMockSummarize(Labelled(ks[i].title, ks[i].content))
                                    == Success(r.value.0[i].summary.value)
                                 && r.value.0[i] == ks[i].(summary := r.value.0[i].summary, isSummarized := true)
    ensures r.Success? ==> (r.value.1 <==> exists i :: 0 <= i < |ks| && !ks[i].isSummarized)
  {
    if exists i | 0 <= i < |ks| :: SummaryFails(ks[i]) then Failure(IndexError)
    else
      Success((seq(|ks|, i requires 0 <= i < |ks| => SummarizeOne(ks[i])),
               exists i | 0 <= i < |ks| :: !ks[i].isSummarized))
  }

  // ---------------------------------------------------------------------------
  // prioritize_tasks

  predicate NeedsPriority(t: LegacyTask) {
    t.status == Some("pending") && !t.isPrioritized
  }

  function FirstWithId(ks: seq<LegacyEntry>, id: string): (r: Option<nat>)
    ensures r.Some? ==> r.value < |ks| && ks[r.value].id == Some(id)
                        && forall j :: 0 <= j < r.value ==> ks[j].id != Some(id)
    ensures r.None? ==> forall j :: 0 <= j < |ks| ==> ks[j].id != Some(id)
  {
    FirstIndex(ks, (e: LegacyEntry) => e.id == Some(id))
  }

  /** The linked-knowledge suffix: the summary when non-empty, else the first
      100 characters of the content. */
  function LinkedNote(e: LegacyEntry): (n: string)
    ensures HasSummary(e.summary) ==> n == e.summary.value
    ensures !HasSummary(e.summary) ==> n == e.content[..if |e.content| < 100 then |e.content| else 100]
  {
    if HasSummary(e.summary) then e.summary.value
    else e.content[..if |e.content| < 100 then |e.content| else 100]
  }

  /** The prioritisation prompt: the description, followed by a bracketed note
      on the linked entry only when the task has a non-empty link that some
      entry carries. */
  function Context(ks: seq<LegacyEntry>, t: LegacyTask): (c: string)
    ensures StartsWith(c, t.description)
    ensures (t.knowledgeLinkId.None? || t.knowledgeLinkId.value == ""
             || FirstWithId(ks, t.knowledgeLinkId.value).None?) ==> c == t.description
    ensures t.knowledgeLinkId.Some? && t.knowledgeLinkId.value != ""
            && FirstWithId(ks, t.knowledgeLinkId.value).Some?
            ==> var e := ks[FirstWithId(ks, t.knowledgeLinkId.value).value];
                c == t.description + " [Linked Knowledge: " + e.title + " - " + LinkedNote(e) + "...]"
  {
    if t.knowledgeLinkId.None? || t.knowledgeLinkId.value == "" then t.description
    else
      match FirstWithId(ks, t.knowledgeLinkId.value)
      case None => t.description
      case Some(i) =>
        var e := ks[i];
        t.description + " [Linked Knowledge: " + e.title + " - " + LinkedNote(e) + "...]"
  }

  function PrioritizeOne(ks: seq<LegacyEntry>, t: LegacyTask): (r: LegacyTask)
    ensures !NeedsPriority(t) ==> r == t
    ensures NeedsPriority(t) ==> r == t.(priority := LegacyMockPrioritize(Context(ks, t)), isPrioritized := true)
  {
    if NeedsPriority(t) then t.(priority := LegacyMockPrioritize(Context(ks, t)), isPrioritized := true)
    else t
  }

  /** `prioritize_tasks`: exactly the pending unflagged tasks get a level and
      the flag, every other task is kept; the flag says whether any did. */
  function PrioritizeTasks(ks: seq<LegacyEntry>, ts: seq<LegacyTask>): (r: (seq<LegacyTask>, bool))
    ensures |r.0| == |ts|
    ensures forall i :: 0 <= i < |ts| && !NeedsPriority(ts[i]) ==> r.0[i] == ts[i]
    ensures forall i :: 0 <= i < |ts| && NeedsPriority(ts[i])
                        ==> && r.0[i].isPrioritized && r.0[i].priority == LegacyMockPrioritize(Context(ks, ts[i]))
                            && r.0[i] == ts[i].(priority := r.0[i].priority, isPrioritized := true)
    ensures forall i :: 0 <= i < |ts| ==> !NeedsPriority(r.0[i])
    ensures r.1 <==> exists i :: 0 <= i < |ts| && NeedsPriority(ts[i])
  {
    (seq(|ts|, i requires 0 <= i < |ts| => PrioritizeOne(ks, ts[i])),
     exists i | 0 <= i < |ts| :: NeedsPriority(ts[i]))
  }

  // ---------------------------------------------------------------------------
  // run

  datatype RunOutcome = RunOutcome(knowledge: seq<LegacyEntry>, tasks: seq<LegacyTask>,
                                   saveKnowledge: bool, saveTasks: bool)

  /** `run`: summaries first, then priorities with the fresh summaries at hand;
      a kind is written back only when some record of it changed. */
  function Run(ks: seq<LegacyEntry>, ts: seq<LegacyTask>): (r: Result<RunOutcome>)
    ensures r.Failure? <==> SummarizeNewEntries(ks).Failure?
    ensures r.Success? ==> && r.value.knowledge == SummarizeNewEntries(ks).value.0
                           && r.value.tasks == PrioritizeTasks(r.value.knowledge, ts).0
    ensures r.Success? ==> (r.value.saveKnowledge <==> exists i :: 0 <= i < |ks| && !ks[i].isSummarized)
    ensures r.Success? ==> (r.value.saveTasks <==> exists i :: 0 <= i < |ts| && NeedsPriority(ts[i]))
  {
    var (knowledge, knowledgeUpdated) :- SummarizeNewEntries(ks);
    var (tasks, tasksUpdated) := PrioritizeTasks(knowledge, ts);
    Success(RunOutcome(knowledge, tasks, knowledgeUpdated, tasksUpdated))
  }

  // ---------------------------------------------------------------------------
  // Saving and loading between runs

  /** A task as the next run sees it after this run saved it. */
  function ReloadTask(t: LegacyTask): (r: LegacyTask)
    ensures TaskFromRecord(TaskToRecord(t)) == Success(r)
  {
    TaskFromRecord(TaskToRecord(t)).value
  }

  function ReloadTaskKeepingFlag(t: LegacyTask): (r: LegacyTask)
    ensures TaskFromRecordKeepingFlag(TaskToRecord(t)) == Success(r)
  {
    TaskFromRecordKeepingFlag(TaskToRecord(t)).value
  }

  /** A pending task the agent prioritised to "medium" comes back from the
      file unflagged, so the next run selects it again. */
  lemma MediumTaskIsReselected(t: LegacyTask)
    requires t.status == Some("pending") && t.isPrioritized && t.priority == "medium"
    ensures NeedsPriority(ReloadTask(t))
  {
  }

  /** The whole consequence: after a run that prioritised a pending task to
      "medium", saving, loading and running again prioritises it again and
      rewrites the task file, although no record was added. */
  lemma RerunRewritesTasks(ks: seq<LegacyEntry>, ts: seq<LegacyTask>, i: nat)
    requires i < |ts| && NeedsPriority(ts[i])
    requires PrioritizeTasks(ks, ts).0[i].priority == "medium"
    ensures var saved := PrioritizeTasks(ks, ts).0;
            var reloaded := seq(|saved|, j requires 0 <= j < |saved| => ReloadTask(saved[j]));
            PrioritizeTasks(ks, reloaded).1
  {
    var saved := PrioritizeTasks(ks, ts).0;
    var reloaded := seq(|saved|, j requires 0 <= j < |saved| => ReloadTask(saved[j]));
    MediumTaskIsReselected(saved[i]);
    assert NeedsPriority(reloaded[i]);
  }

  /** With the stored flag read back, saving and loading changes no task, and
      a second prioritisation pass after a save and a load selects nothing. */
  lemma RerunKeepingFlagIsQuiet(ks: seq<LegacyEntry>, ts: seq<LegacyTask>)
    ensures var saved := PrioritizeTasks(ks, ts).0;
            var reloaded := seq(|saved|, j requires 0 <= j < |saved| => ReloadTaskKeepingFlag(saved[j]));
            reloaded == saved && !PrioritizeTasks(ks, reloaded).1
  {
    var saved := PrioritizeTasks(ks, ts).0;
    var reloaded := seq(|saved|, j requires 0 <= j < |saved| => ReloadTaskKeepingFlag(saved[j]));
    assert forall j :: 0 <= j < |saved| ==> reloaded[j] == saved[j];
  }

  /** Entries do not share the problem: every summary the agent writes is
      non-empty, so a summarised entry comes back summarised. */
  lemma SummarisedEntriesSurviveReload(ks: seq<LegacyEntry>)
    requires SummarizeNewEntries(ks).Success?
    requires forall i :: 0 <= i < |ks| && ks[i].isSummarized ==> HasSummary(ks[i].summary)
    ensures var saved := SummarizeNewEntries(ks).value.0;
            forall i :: 0 <= i < |saved| ==> EntryFromRecord(EntryToRecord(saved[i])) == Success(saved[i])
  {
    var saved := SummarizeNewEntries(ks).value.0;
    forall i | 0 <= i < |saved|
      ensures EntryFromRecord(EntryToRecord(saved[i])) == Success(saved[i])
    {
      EntryRoundTrip(saved[i]);
    }
  }
}

/** The chat prototype: a typed question is routed either to the tasks or to
    the knowledge entries, and the matching records are selected by keyword.
    Only the selection is modelled; the reply texts are not.
 */
module Prototype2 {
  import opened Wrappers
  import opened Text
  import opened Seqs

  /** Loaded with `data.get(...)`, so an absent id, status or priority is None. */
  datatype ChatEntry = ChatEntry(id: Option<string>, title: string, content: string,
                                 tags: seq<string>, summary: Option<string>)

  datatype ChatTask = ChatTask(id: Option<string>, title: string, description: string,
                               dueDate: string, status: Option<string>, priority: Option<string>)

  // ---------------------------------------------------------------------------
  // Reading the question

  /** `re.findall(r'\w+', query.lower())`: the maximal runs of word characters. */
  function Keywords(query: string): (ks: seq<string>)
    ensures forall j :: 0 <= j < |ks| ==> |ks[j]| > 0 && AllInRun(ks[j], WordChar)
  {
    Runs(Lower(query), WordChar)
  }

  /** Words separated by a space are read separately: the keywords of
      `a + " " + b` are those of `a` followed by those of `b`. */
  lemma KeywordsOfJoined(a: string, b: string)
    ensures Keywords(a + " " + b) == Keywords(a) + Keywords(b)
  {
    LowerAppend(a + " ", b);
    LowerAppend(a, " ");
    assert Lower(" ") == [' '];
    RunsSeparated(Lower(a), ' ', Lower(b), WordChar);
  }

  /** The question is about tasks when its lower-cased text contains "task",
      "todo", "due", "priority" or "complete" anywhere, even inside a word. */
  predicate TaskIntent(query: string) {
    var q := Lower(query);
    Contains(q, "task") || Contains(q, "todo") || Contains(q, "due")
    || Contains(q, "priority") || Contains(q, "complete")
  }

  /** The status asked about: "pending" when "pending" or "open" occurs,
      otherwise "complete" when "complete" occurs, otherwise "pending". */
  function TargetStatus(query: string): (s: string)
    ensures s == "pending" || s == "complete"
    ensures s == "complete" <==>
              var q := Lower(query);
              !Contains(q, "pending") && !Contains(q, "open") && Contains(q, "complete")
  {
    var q := Lower(query);
    if Contains(q, "pending") || Contains(q, "open") then "pending"
    else if Contains(q, "complete") then "complete"
    else "pending"
  }

  // ---------------------------------------------------------------------------
  // Matching

  /** Some keyword occurs in the lower-cased title or description. */
  predicate TaskMatches(t: ChatTask, keywords: seq<string>) {
    exists k :: k in keywords && (Contains(Lower(t.title), k) || Contains(Lower(t.description), k))
  }

  function TaskSelector(target: string, keywords: seq<string>): ChatTask -> bool {
    (t: ChatTask) => t.status == Some(target) && TaskMatches(t, keywords)
  }

  /** The task results: in stored order, the tasks of the target status that
      match at least one keyword. */
  function TaskResults(tasks: seq<ChatTask>, query: string): (r: seq<ChatTask>)
    ensures forall t :: t in r <==> && t in tasks && t.status == Some(TargetStatus(query))
                                    && TaskMatches(t, Keywords(query))
  {
    Filter(tasks, TaskSelector(TargetStatus(query), Keywords(query)))
  }

  /** The text an entry is searched in: title, content and the space-joined
      tags, each lower-cased, separated by spaces. */
  function EntryText(e: ChatEntry): string {
    Lower(e.title) + " " + Lower(e.content) + " " + Lower(Join(e.tags, " "))
  }

  /** Some keyword occurs in the entry's text: one is enough. */
  predicate EntryMatches(e: ChatEntry, keywords: seq<string>) {
    exists k :: k in keywords && Contains(EntryText(e), k)
  }

  function EntrySelector(keywords: seq<string>): ChatEntry -> bool {
    (e: ChatEntry) => EntryMatches(e, keywords)
  }

  /** The knowledge results: in stored order, the entries matching at least
      one keyword. */
  function KnowledgeResults(entries: seq<ChatEntry>, query: string): (r: seq<ChatEntry>)
    ensures forall e :: e in r <==> e in entries && EntryMatches(e, Keywords(query))
  {
    Filter(entries, EntrySelector(Keywords(query)))
  }

  /** The knowledge match is a disjunction of keywords: an entry found for a
      question is still found once more words are added to it. */
  lemma KnowledgeMatchIsDisjunctive(entries: seq<ChatEntry>, a: string, b: string)
    ensures forall e :: e in KnowledgeResults(entries, a) ==> e in KnowledgeResults(entries, a + " " + b)
  {
    KeywordsOfJoined(a, b);
    forall e | e in KnowledgeResults(entries, a)
      ensures EntryMatches(e, Keywords(a + " " + b))
    {
      var k :| k in Keywords(a) && Contains(EntryText(e), k);
      assert k in Keywords(a + " " + b);
    }
  }

  /** A question without keywords finds nothing. */
  lemma NoKeywordsNoKnowledge(entries: seq<ChatEntry>, query: string)
    requires Keywords(query) == []
    ensures KnowledgeResults(entries, query) == []
  {
    assert forall e :: !EntryMatches(e, Keywords(query));
    FilterNone(entries, EntrySelector(Keywords(query)));
  }

  // ---------------------------------------------------------------------------
  // process_query

  /** Which records the reply presents. */
  datatype Reply =
    | TasksFound(status: string, tasks: seq<ChatTask>)
    | NoTasksFound(status: string)
    | EntriesFound(entries: seq<ChatEntry>)
    | NothingFound

  /** `process_query`: a task question is answered from the tasks alone (an
      empty result is reported as such, with no knowledge search); any other
      question is answered from the knowledge entries. */
  function ProcessQuery(entries: seq<ChatEntry>, tasks: seq<ChatTask>, query: string): (r: Reply)
    ensures TaskIntent(query) <==> r.TasksFound? || r.NoTasksFound?
    ensures TaskIntent(query) ==> r.status == TargetStatus(query)
    ensures r.TasksFound? ==> r.tasks == TaskResults(tasks, query) && |r.tasks| > 0
    ensures r.NoTasksFound? <==> TaskIntent(query) && TaskResults(tasks, query) == []
    ensures r.EntriesFound? ==> r.entries == KnowledgeResults(entries, query) && |r.entries| > 0
    ensures r.NothingFound? <==> !TaskIntent(query) && KnowledgeResults(entries, query) == []
  {
    if TaskIntent(query) then
      var found := TaskResults(tasks, query);
      if |found| > 0 then TasksFound(TargetStatus(query), found) else NoTasksFound(TargetStatus(query))
    else
      var found := KnowledgeResults(entries, query);
      if |found| > 0 then EntriesFound(found) else NothingFound
  }

  /** A task question never consults the knowledge entries, even when no task
      matches: the reply is the same whatever entries are stored. */
  lemma TaskQuestionIgnoresKnowledge(entries: seq<ChatEntry>, other: seq<ChatEntry>,
                                     tasks: seq<ChatTask>, query: string)
    requires TaskIntent(query)
    ensures ProcessQuery(entries, tasks, query) == ProcessQuery(other, tasks, query)
  {
  }

  /** Any other question never consults the tasks. */
  lemma KnowledgeQuestionIgnoresTasks(entries: seq<ChatEntry>, tasks: seq<ChatTask>,
                                      other: seq<ChatTask>, query: string)
    requires !TaskIntent(query)
    ensures ProcessQuery(entries, tasks, query) == ProcessQuery(entries, other, query)
  {
  }
}

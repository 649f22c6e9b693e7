/** The final knowledge-and-task manager: the in-memory store of entries and
    tasks, the operations of its menu (add an entry, add a task with a
    knowledge link, list tasks of a status, search the entries) and the
    enrichment cycle that summarises and prioritises each record once.
    Menu input arrives as parameters; printing is not modelled.
 */
module PkmsManager {
  import opened Wrappers
  import opened Text
  import opened Seqs
  import opened Models
  import opened LlmAgent

  datatype Store = Store(knowledge: seq<KnowledgeEntry>, tasks: seq<Task>)

  // ---------------------------------------------------------------------------
  // add_knowledge_entry

  /** The tag list typed at the prompt: comma-separated, each tag stripped;
      nothing typed gives no tags. */
  function ParseTags(tagsInput: string): (tags: seq<string>)
    ensures tagsInput == "" ==> tags == []
    ensures tagsInput != "" ==> |tags| == |SplitOn(tagsInput, ',')|
    ensures tagsInput != "" ==> forall i :: 0 <= i < |tags| ==> tags[i] == Strip(SplitOn(tagsInput, ',')[i])
    ensures forall i :: 0 <= i < |tags| ==> ',' !in tags[i]
    ensures forall i :: 0 <= i < |tags| && |tags[i]| > 0
                        ==> !IsSpace(tags[i][0]) && !IsSpace(tags[i][|tags[i]| - 1])
  {
    if tagsInput == "" then []
    else
      var parts := SplitOn(tagsInput, ',');
      var tags := seq(|parts|, i requires 0 <= i < |parts| => Strip(parts[i]));
      assert forall i :: 0 <= i < |tags| ==> ',' !in tags[i] by {
        forall i | 0 <= i < |tags|
          ensures ',' !in tags[i]
        {
          StripKeepsAbsentChar(parts[i], ',');
        }
      }
      tags
  }

  /** `add_knowledge_entry`: appends one unsummarised entry with a fresh id and
      the parsed tags; nothing else in the store changes. */
  function AddKnowledgeEntry(st: Store, title: string, content: string, tagsInput: string,
                             freshId: string, now: string): (st': Store)
    ensures st'.tasks == st.tasks
    ensures |st'.knowledge| == |st.knowledge| + 1
    ensures st'.knowledge[..|st.knowledge|] == st.knowledge
    ensures var e := st'.knowledge[|st.knowledge|];
            && e.id == freshId && e.title == title && e.content == content
            && e.tags == ParseTags(tagsInput) && e.createdAt == now
            && e.summary.None? && !e.isSummarized
  {
    var e := NewKnowledgeEntry(title, content, Some(ParseTags(tagsInput)), None, None, None, false,
                               freshId, now);
    st.(knowledge := st.knowledge + [e])
  }

  // ---------------------------------------------------------------------------
  // add_task: resolving the link token

  /** The index of the first entry whose id starts with `token` (`next(...)`). */
  function FirstWithPrefix(ks: seq<KnowledgeEntry>, token: string): (r: Option<nat>)
    ensures r.Some? ==> r.value < |ks| && StartsWith(ks[r.value].id, token)
                        && forall j :: 0 <= j < r.value ==> !StartsWith(ks[j].id, token)
    ensures r.None? ==> forall j :: 0 <= j < |ks| ==> !StartsWith(ks[j].id, token)
  {
    FirstIndex(ks, (e: KnowledgeEntry) => StartsWith(e.id, token))
  }

  /** The link chosen while adding a task. An empty token or an empty
      knowledge list gives no link; a token that `int()` accepts is a 1-based
      position, and out of range gives no link (no fallback to the id search);
      any other token links the first entry whose id starts with it. Whatever
      is returned is the id of an existing entry. */
  function ResolveLink(ks: seq<KnowledgeEntry>, token: string): (r: Option<string>)
    ensures r.Some? ==> exists i :: 0 <= i < |ks| && ks[i].id == r.value
    ensures |ks| == 0 || token == "" ==> r.None?
    ensures |ks| > 0 && token != "" && ParseInt(token).Some? ==>
              var n := ParseInt(token).value;
              r == (if 1 <= n <= |ks| then Some(ks[n - 1].id) else None)
    ensures |ks| > 0 && token != "" && ParseInt(token).None? ==>
              (r.Some? <==> exists j :: 0 <= j < |ks| && StartsWith(ks[j].id, token))
    ensures |ks| > 0 && token != "" && ParseInt(token).None? && r.Some? ==>
              exists i :: 0 <= i < |ks| && r.value == ks[i].id && StartsWith(ks[i].id, token)
                          && forall j :: 0 <= j < i ==> !StartsWith(ks[j].id, token)
  {
    if |ks| == 0 || token == "" then None
    else
      match ParseInt(token)
      case Some(n) => if 1 <= n <= |ks| then Some(ks[n - 1].id) else None
      case None =>
        match FirstWithPrefix(ks, token)
        case Some(i) => Some(ks[i].id)
        case None => None
  }

  /** `add_task`: appends one pending, medium, unprioritised task whose link
      is the resolved token; the knowledge list is untouched. */
  function AddTask(st: Store, title: string, description: string, dueDate: string,
                   linkChoice: string, freshId: string, now: string): (st': Store)
    ensures st'.knowledge == st.knowledge
    ensures |st'.tasks| == |st.tasks| + 1 && st'.tasks[..|st.tasks|] == st.tasks
    ensures var t := st'.tasks[|st.tasks|];
            && t.id == freshId && t.title == title && t.description == description
            && t.dueDate == dueDate && t.createdAt == now
            && t.status == "pending" && t.priority == "medium" && !t.isPrioritized
            && t.knowledgeLinkId == ResolveLink(st.knowledge, linkChoice)
  {
    var t := NewTask(title, description, dueDate, ResolveLink(st.knowledge, linkChoice), None, None,
                     Pending, Medium, false, freshId, now);
    st.(tasks := st.tasks + [t])
  }

  // ---------------------------------------------------------------------------
  // list_tasks

  function PriorityOf(t: Task): string {
    t.priority
  }

  /** The key order of `sorted(..., key=priority, reverse=True)`: a greater string first. */
  predicate PriorityFirst(a: string, b: string) {
    LexLess(b, a)
  }

  lemma PriorityFirstIsStrictTotal()
    ensures StrictTotalOrder(PriorityFirst)
  {
    forall a | true
      ensures !PriorityFirst(a, a)
    {
      LexLessIrreflexive(a);
    }
    forall a, b, c | PriorityFirst(a, b) && PriorityFirst(b, c)
      ensures PriorityFirst(a, c)
    {
      LexLessTransitive(c, b, a);
    }
    forall a, b | a != b
      ensures PriorityFirst(a, b) || PriorityFirst(b, a)
    {
      LexLessConnected(a, b);
    }
  }

  function WithStatus(tasks: seq<Task>, status: string): (r: seq<Task>)
    ensures forall t :: t in r <==> t in tasks && t.status == status
  {
    Filter(tasks, (t: Task) => t.status == status)
  }

  /** `list_tasks(status)`: exactly the tasks of that status, ordered by the
      priority STRING from greatest to least, tasks of equal priority in
      insertion order. */
  function ListTasks(tasks: seq<Task>, status: string): (r: seq<Task>)
    ensures forall t :: t in r <==> t in tasks && t.status == status
    ensures multiset(r) == multiset(WithStatus(tasks, status))
    ensures forall i, j :: 0 <= i < j < |r| ==> !LexLess(r[i].priority, r[j].priority)
    ensures forall p :: KeyClass(r, PriorityOf, p) == KeyClass(WithStatus(tasks, status), PriorityOf, p)
  {
    PriorityFirstIsStrictTotal();
    var r := SortBy(WithStatus(tasks, status), PriorityOf, PriorityFirst);
    SameMultisetSameMembers(r, WithStatus(tasks, status));
    r
  }

  /** As written, the order of the three agent levels is medium, low, high:
      a "high" task is listed after every "low" and every "medium" one. */
  lemma ListTasksPutsHighLast(tasks: seq<Task>, status: string)
    ensures var r := ListTasks(tasks, status);
            forall i, j :: 0 <= i < j < |r| && r[i].priority == "high"
                           ==> r[j].priority != "low" && r[j].priority != "medium"
  {
    assert LexLess("high", "low");
    assert LexLess("high", "medium");
  }

  /** A pending "high" task listed after a pending "low" one: the listing as
      written contradicts the high > medium > low order of the levels. */
  lemma ListTasksHighLowExample(h: Task, l: Task)
    requires h.status == "pending" && h.priority == "high"
    requires l.status == "pending" && l.priority == "low"
    ensures ListTasks([h, l], "pending") == [l, h]
  {
    var r := ListTasks([h, l], "pending");
    FilterAll([h, l], (t: Task) => t.status == "pending");
    TwoElementArrangements(r, h, l);
    assert LexLess("high", "low");
  }

  lemma TwoElementArrangements<T>(r: seq<T>, x: T, y: T)
    requires multiset(r) == multiset([x, y])
    ensures r == [x, y] || r == [y, x]
  {
    assert |r| == 2 by {
      assert |multiset(r)| == 2;
    }
    SameMultisetSameMembers(r, [x, y]);
    assert r[0] in r && r[1] in r;
    assert r == [r[0], r[1]];
  }

  /** The rank the levels are meant to have: high 2, medium 1, low 0, any other -1. */
  function Rank(priority: string): int {
    if priority == "high" then 2
    else if priority == "medium" then 1
    else if priority == "low" then 0
    else -1
  }

  function RankOf(t: Task): int {
    Rank(t.priority)
  }

  predicate RankFirst(a: int, b: int) {
    a > b
  }

  /** The listing as meant: the tasks of the status, high before medium before
      low, ties in insertion order. */
  function ListTasksByRank(tasks: seq<Task>, status: string): (r: seq<Task>)
    ensures forall t :: t in r <==> t in tasks && t.status == status
    ensures multiset(r) == multiset(WithStatus(tasks, status))
    ensures forall i, j :: 0 <= i < j < |r| ==> Rank(r[i].priority) >= Rank(r[j].priority)
    ensures forall k :: KeyClass(r, RankOf, k) == KeyClass(WithStatus(tasks, status), RankOf, k)
  {
    var r := SortBy(WithStatus(tasks, status), RankOf, RankFirst);
    SameMultisetSameMembers(r, WithStatus(tasks, status));
    r
  }

  // ---------------------------------------------------------------------------
  // search_pkm

  /** The text an entry is searched in: title, content and tags, lowercased. */
  function SearchText(e: KnowledgeEntry): string {
    Lower(e.title + " " + e.content + " " + Join(e.tags, " "))
  }

  predicate MatchesAll(e: KnowledgeEntry, words: seq<string>) {
    forall w :: w in words ==> Contains(SearchText(e), w)
  }

  /** `search_pkm(query)`: nothing for an empty query; otherwise, in stored
      order, the entries in whose text every word of the lowercased query
      occurs as a substring. */
  function SearchPkm(ks: seq<KnowledgeEntry>, query: string): (r: seq<KnowledgeEntry>)
    ensures query == "" ==> r == []
    ensures query != "" ==> forall e :: e in r <==> e in ks && MatchesAll(e, Words(Lower(query)))
    ensures query != "" ==> r == Filter(ks, e => MatchesAll(e, Words(Lower(query))))
  {
    var q := Lower(query);
    if q == "" then [] else Filter(ks, e => MatchesAll(e, Words(q)))
  }

  lemma {:induction false} WordsOfBlank(s: string)
    requires forall i :: 0 <= i < |s| ==> IsSpace(s[i])
    ensures Words(s) == []
  {
    if |s| > 0 {
      WordsOfBlank(s[1..]);
    }
  }

  /** A query of whitespace only is not empty, has no words, and so matches
      every entry. */
  lemma BlankQueryMatchesAll(ks: seq<KnowledgeEntry>, query: string)
    requires |query| > 0 && forall i :: 0 <= i < |query| ==> IsSpace(query[i])
    ensures SearchPkm(ks, query) == ks
  {
    WordsOfBlank(Lower(query));
    FilterAll(ks, e => MatchesAll(e, Words(Lower(query))));
  }

  // ---------------------------------------------------------------------------
  // run_agent_cycle

  predicate NeedsPriority(t: Task) {
    t.status == "pending" && !t.isPrioritized
  }

  /** The position of the first entry carrying `id`
      (`next(e for e in knowledge if e.id == id)`). */
  function FirstWithId(ks: seq<KnowledgeEntry>, id: string): (r: Option<nat>)
    ensures r.Some? ==> r.value < |ks| && ks[r.value].id == id
                        && forall j :: 0 <= j < r.value ==> ks[j].id != id
    ensures r.None? ==> forall j :: 0 <= j < |ks| ==> ks[j].id != id
  {
    FirstIndex(ks, (e: KnowledgeEntry) => e.id == id)
  }

  /** The lookup reads only the ids: lists with the same ids give the same answer. */
  lemma FirstWithIdReadsIds(a: seq<KnowledgeEntry>, b: seq<KnowledgeEntry>, id: string)
    requires |a| == |b| && forall i :: 0 <= i < |a| ==> a[i].id == b[i].id
    ensures FirstWithId(a, id) == FirstWithId(b, id)
  {
    var ra, rb := FirstWithId(a, id), FirstWithId(b, id);
    if ra.Some? {
      assert b[ra.value].id == id;
    }
    if rb.Some? {
      assert a[rb.value].id == id;
    }
  }

  const MissingLink := "No linked content found."

  /** The context handed to the prioritiser: "" without a link; the linked
      entry's summary when it is non-empty, else its content; the fixed
      missing-link text when no entry has the linked id. */
  function LinkedContext(ks: seq<KnowledgeEntry>, t: Task): (c: string)
    ensures t.knowledgeLinkId.None? || t.knowledgeLinkId.value == "" ==> c == ""
    ensures t.knowledgeLinkId.Some? && t.knowledgeLinkId.value != ""
            && (forall j :: 0 <= j < |ks| ==> ks[j].id != t.knowledgeLinkId.value)
            ==> c == MissingLink
    ensures t.knowledgeLinkId.Some? && t.knowledgeLinkId.value != ""
            && FirstWithId(ks, t.knowledgeLinkId.value).Some?
            ==> var e := ks[FirstWithId(ks, t.knowledgeLinkId.value).value];
                c == (if e.summary.Some? && e.summary.value != "" then e.summary.value else e.content)
  {
    if t.knowledgeLinkId.None? || t.knowledgeLinkId.value == "" then ""
    else
      match FirstWithId(ks, t.knowledgeLinkId.value)
      case None => MissingLink
      case Some(i) => var e := ks[i]; if e.summary.Some? && e.summary.value != "" then e.summary.value else e.content
  }

  /** An entry after the cycle: summarised; kept as it was when it already
      was; otherwise given the agent's summary, nothing else changed. */
  function SummarizeOne(e: KnowledgeEntry): (r: KnowledgeEntry)
    ensures r.isSummarized
    ensures e.isSummarized ==> r == e
    ensures !e.isSummarized ==> r == e.(summary := Some(SummarizeEntry(e)), isSummarized := true)
  {
    if e.isSummarized then e
    else e.(summary := Some(SummarizeEntry(e)), isSummarized := true)
  }

  /** A task after the cycle: a pending unprioritised task gets a level (from
      its linked context) and the flag, nothing else changed; any other task
      is kept. */
  function PrioritizeOne(ks: seq<KnowledgeEntry>, t: Task): (r: Task)
    ensures !NeedsPriority(t) ==> r == t
    ensures NeedsPriority(t) ==> && r.isPrioritized && IsLevel(r.priority)
                                 && r.priority == PrioritizeTask(t, LinkedContext(ks, t))
                                 && r == t.(priority := r.priority, isPrioritized := true)
  {
    if NeedsPriority(t) then t.(priority := PrioritizeTask(t, LinkedContext(ks, t)), isPrioritized := true)
    else t
  }

  function SummarizeAll(ks: seq<KnowledgeEntry>): seq<KnowledgeEntry> {
    seq(|ks|, i requires 0 <= i < |ks| => SummarizeOne(ks[i]))
  }

  function PrioritizeAll(ks: seq<KnowledgeEntry>, ts: seq<Task>): seq<Task> {
    seq(|ts|, i requires 0 <= i < |ts| => PrioritizeOne(ks, ts[i]))
  }

  predicate AnyUnsummarised(ks: seq<KnowledgeEntry>) {
    exists i :: 0 <= i < |ks| && !ks[i].isSummarized
  }

  predicate AnyNeedsPriority(ts: seq<Task>) {
    exists i :: 0 <= i < |ts| && NeedsPriority(ts[i])
  }

  datatype CycleOutcome = CycleOutcome(store: Store, knowledgeUpdated: bool, tasksUpdated: bool)

  /** One enrichment cycle. Every entry ends summarised and an entry already
      summarised is kept as it was; exactly the pending unprioritised tasks get
      a level and the flag (with the context taken from the entries as
      summarised in this same cycle), every other task is kept; each returned
      flag says whether some record of its kind was enriched. */
  function AgentCycle(st: Store): (o: CycleOutcome)
    ensures |o.store.knowledge| == |st.knowledge| && |o.store.tasks| == |st.tasks|
    ensures forall i :: 0 <= i < |st.knowledge| ==> o.store.knowledge[i].isSummarized
    ensures forall i :: 0 <= i < |st.knowledge| && st.knowledge[i].isSummarized
                        ==> o.store.knowledge[i] == st.knowledge[i]
    ensures forall i :: 0 <= i < |st.knowledge| && !st.knowledge[i].isSummarized
                        ==> o.store.knowledge[i]
                            == st.knowledge[i].(summary := Some(SummarizeEntry(st.knowledge[i])),
                                                isSummarized := true)
    ensures forall i :: 0 <= i < |st.tasks| && NeedsPriority(st.tasks[i])
                        ==> && o.store.tasks[i].isPrioritized && IsLevel(o.store.tasks[i].priority)
                            && o.store.tasks[i].priority
                               == PrioritizeTask(st.tasks[i], LinkedContext(o.store.knowledge, st.tasks[i]))
                            && o.store.tasks[i] == st.tasks[i].(priority := o.store.tasks[i].priority,
                                                                isPrioritized := true)
    ensures forall i :: 0 <= i < |st.tasks| && !NeedsPriority(st.tasks[i])
                        ==> o.store.tasks[i] == st.tasks[i]
    ensures forall i :: 0 <= i < |st.tasks| ==> !NeedsPriority(o.store.tasks[i])
    ensures o.knowledgeUpdated <==> AnyUnsummarised(st.knowledge)
    ensures o.tasksUpdated <==> AnyNeedsPriority(st.tasks)
  {
    var ks := SummarizeAll(st.knowledge);
    CycleOutcome(Store(ks, PrioritizeAll(ks, st.tasks)),
                 AnyUnsummarised(st.knowledge), AnyNeedsPriority(st.tasks))
  }

  /** A second cycle with no new records changes nothing and reports nothing. */
  lemma AgentCycleIdempotent(st: Store)
    ensures var once := AgentCycle(st).store;
            AgentCycle(once) == CycleOutcome(once, false, false)
  {
    var once := AgentCycle(st).store;
    var twice := AgentCycle(once);
    assert twice.store.knowledge == once.knowledge;
    assert twice.store.tasks == once.tasks;
  }

  /** Summaries come first: a task linked to an entry summarised in this
      cycle is prioritised with that fresh summary as its context. */
  lemma CycleUsesFreshSummary(st: Store, i: nat)
    requires i < |st.tasks| && NeedsPriority(st.tasks[i])
    requires st.tasks[i].knowledgeLinkId.Some? && st.tasks[i].knowledgeLinkId.value != ""
    requires FirstWithId(st.knowledge, st.tasks[i].knowledgeLinkId.value).Some?
    requires !st.knowledge[FirstWithId(st.knowledge, st.tasks[i].knowledgeLinkId.value).value].isSummarized
    ensures var e := st.knowledge[FirstWithId(st.knowledge, st.tasks[i].knowledgeLinkId.value).value];
            AgentCycle(st).store.tasks[i].priority == PrioritizeTask(st.tasks[i], SummarizeEntry(e))
  {
    var t := st.tasks[i];
    var id := t.knowledgeLinkId.value;
    var ks := SummarizeAll(st.knowledge);
    FirstWithIdReadsIds(ks, st.knowledge, id);
    var k := FirstWithId(st.knowledge, id).value;
    assert ks[k] == SummarizeOne(st.knowledge[k]);
    assert LinkedContext(ks, t) == SummarizeEntry(st.knowledge[k]);
    assert AgentCycle(st).store.tasks[i] == PrioritizeOne(ks, t);
  }

  /** The first loop of `run_agent_cycle`: every unsummarised entry is summarised in place. */
  method SummarizeInPlace(entries: seq<KnowledgeEntry>) returns (ks: seq<KnowledgeEntry>, updated: bool)
    ensures ks == SummarizeAll(entries)
    ensures updated <==> AnyUnsummarised(entries)
  {
    ks := entries;
    updated := false;
    for i := 0 to |ks|
      invariant |ks| == |entries|
      invariant forall j :: 0 <= j < i ==> ks[j] == SummarizeOne(entries[j])
      invariant forall j :: i <= j < |ks| ==> ks[j] == entries[j]
      invariant updated <==> exists j :: 0 <= j < i && !entries[j].isSummarized
    {
      var e := ks[i];
      if !e.isSummarized {
        ks := ks[i := e.(summary := Some(SummarizeEntry(e)), isSummarized := true)];
        updated := true;
      }
    }
    assert forall j :: 0 <= j < |ks| ==> ks[j] == SummarizeAll(entries)[j];
  }

  /** The second loop: every pending unprioritised task is prioritised in place,
      its context read from `ks`. */
  method PrioritizeInPlace(ks: seq<KnowledgeEntry>, tasks: seq<Task>) returns (ts: seq<Task>, updated: bool)
    ensures ts == PrioritizeAll(ks, tasks)
    ensures updated <==> AnyNeedsPriority(tasks)
  {
    ts := tasks;
    updated := false;
    for i := 0 to |ts|
      invariant |ts| == |tasks|
      invariant forall j :: 0 <= j < i ==> ts[j] == PrioritizeOne(ks, tasks[j])
      invariant forall j :: i <= j < |ts| ==> ts[j] == tasks[j]
      invariant updated <==> exists j :: 0 <= j < i && NeedsPriority(tasks[j])
    {
      if ts[i].status == "pending" && !ts[i].isPrioritized {
        var context := LinkedContext(ks, ts[i]);
        ts := ts[i := ts[i].(priority := PrioritizeTask(ts[i], context), isPrioritized := true)];
        updated := true;
      }
    }
  }

  /** `run_agent_cycle` as written: the two loops, summaries first. */
  method RunAgentCycle(st: Store) returns (out: Store, knowledgeUpdated: bool, tasksUpdated: bool)
    ensures CycleOutcome(out, knowledgeUpdated, tasksUpdated) == AgentCycle(st)
  {
    var ks, ts;
    ks, knowledgeUpdated := SummarizeInPlace(st.knowledge);
    ts, tasksUpdated := PrioritizeInPlace(ks, st.tasks);
    out := Store(ks, ts);
  }
}

/** The first knowledge-and-task prototype: its two records with their
    defaults and JSON form, the status filter of its task view, and marking a
    task complete by id. A fresh identifier and the current time are
    parameters (`freshId`, `now`).
 */
module Prototype1 {
  import opened Wrappers
  import opened Seqs
  import opened Stored

  datatype Entry = Entry(
    id: string,
    title: string,
    content: string,
    tags: seq<string>,
    createdAt: string,
    summary: Option<string>)

  datatype Task = Task(
    id: string,
    title: string,
    description: string,
    dueDate: string,
    status: string,
    priority: string,
    knowledgeLinkId: Option<string>,
    createdAt: string)

  /** `KnowledgeEntry(title, content, tags)`: a fresh id, no tags when none
      (or an empty list) are given, no summary. */
  function NewEntry(title: string, content: string, tags: Option<seq<string>>,
                    freshId: string, now: string): (e: Entry)
    ensures e.id == freshId && e.createdAt == now && e.summary.None?
    ensures e.title == title && e.content == content
    ensures e.tags == (if tags.Some? then tags.value else [])
  {
    Entry(freshId, title, content, tags.GetOr([]), now, None)
  }

  /** `Task(title, description, due_date, link)`: pending, medium, fresh id. */
  function NewTask(title: string, description: string, dueDate: string, link: Option<string>,
                   freshId: string, now: string): (t: Task)
    ensures t.status == "pending" && t.priority == "medium"
    ensures t.id == freshId && t.createdAt == now && t.knowledgeLinkId == link
    ensures t.title == title && t.description == description && t.dueDate == dueDate
  {
    Task(freshId, title, description, dueDate, "pending", "medium", link, now)
  }

  // ---------------------------------------------------------------------------
  // to_dict / from_dict

  /** `to_dict()`: the object's attributes; it has no enrichment flag. */
  function EntryToRecord(e: Entry): (d: KnowledgeRecord)
    ensures d.id == Given(e.id) && d.title == Given(e.title) && d.content == Given(e.content)
    ensures d.tags == Given(e.tags) && d.createdAt == Given(e.createdAt)
    ensures d.summary.Get() == e.summary && d.isSummarized.Missing?
  {
    KnowledgeRecord(Given(e.id), Given(e.title), Given(e.content), Given(e.tags), Given(e.createdAt),
                    Put(e.summary), Missing)
  }

  /** `KnowledgeEntry.from_dict`: KeyError without title or content; a missing
      id or timestamp is replaced by a fresh one. */
  function EntryFromRecord(d: KnowledgeRecord, freshId: string, now: string): (r: Result<Entry>)
    ensures d.title.Missing? ==> r == Failure(KeyError("title"))
    ensures d.title.Given? && d.content.Missing? ==> r == Failure(KeyError("content"))
    ensures r.Success? <==> d.title.Given? && d.content.Given?
    ensures r.Success? ==> && r.value.title == d.title.value && r.value.content == d.content.value
                           && r.value.id == (if d.id.Given? then d.id.value else freshId)
                           && r.value.createdAt == (if d.createdAt.Given? then d.createdAt.value else now)
                           && r.value.tags == (if d.tags.Given? then d.tags.value else [])
                           && r.value.summary == d.summary.Get()
  {
    var title :- d.title.Require("title");
    var content :- d.content.Require("content");
    var e := NewEntry(title, content, d.tags.Get(), freshId, now);
    Success(e.(id := d.id.GetOr(freshId), createdAt := d.createdAt.GetOr(now), summary := d.summary.Get()))
  }

  /** Saving an entry and loading it back gives the same entry, whatever fresh
      id or clock is at hand. */
  lemma EntryRoundTrip(e: Entry, freshId: string, now: string)
    ensures EntryFromRecord(EntryToRecord(e), freshId, now) == Success(e)
  {
  }

  function TaskToRecord(t: Task): (d: TaskRecord)
    ensures d.id == Given(t.id) && d.status == Given(t.status) && d.priority == Given(t.priority)
    ensures d.title == Given(t.title) && d.description == Given(t.description)
    ensures d.dueDate == Given(t.dueDate) && d.createdAt == Given(t.createdAt)
    ensures d.knowledgeLinkId.Get() == t.knowledgeLinkId && d.isPrioritized.Missing?
  {
    TaskRecord(Given(t.id), Given(t.title), Given(t.description), Given(t.dueDate), Given(t.status),
               Given(t.priority), Put(t.knowledgeLinkId), Given(t.createdAt), Missing)
  }

  /** `Task.from_dict`: KeyError without title, description or due date; a
      missing id, status, priority or timestamp becomes a fresh id, "pending",
      "medium" or the current time. */
  function TaskFromRecord(d: TaskRecord, freshId: string, now: string): (r: Result<Task>)
    ensures d.title.Missing? ==> r == Failure(KeyError("title"))
    ensures d.title.Given? && d.description.Missing? ==> r == Failure(KeyError("description"))
    ensures d.title.Given? && d.description.Given? && d.dueDate.Missing? ==> r == Failure(KeyError("due_date"))
    ensures r.Success? <==> d.title.Given? && d.description.Given? && d.dueDate.Given?
    ensures r.Success? ==> && r.value.title == d.title.value && r.value.description == d.description.value
                           && r.value.dueDate == d.dueDate.value
                           && r.value.id == (if d.id.Given? then d.id.value else freshId)
                           && r.value.status == (if d.status.Given? then d.status.value else "pending")
                           && r.value.priority == (if d.priority.Given? then d.priority.value else "medium")
                           && r.value.createdAt == (if d.createdAt.Given? then d.createdAt.value else now)
                           && r.value.knowledgeLinkId == d.knowledgeLinkId.Get()
  {
    var title :- d.title.Require("title");
    var description :- d.description.Require("description");
    var dueDate :- d.dueDate.Require("due_date");
    var t := NewTask(title, description, dueDate, d.knowledgeLinkId.Get(), freshId, now);
    Success(t.(id := d.id.GetOr(freshId), status := d.status.GetOr("pending"),
               priority := d.priority.GetOr("medium"), createdAt := d.createdAt.GetOr(now)))
  }

  /** Saving a task and loading it back gives the same task. */
  lemma TaskRoundTrip(t: Task, freshId: string, now: string)
    ensures TaskFromRecord(TaskToRecord(t), freshId, now) == Success(t)
  {
  }

  /** A record holding only the required keys loads as a new task would be
      created. */
  lemma BareTaskRecordIsNewTask(title: string, description: string, dueDate: string,
                                freshId: string, now: string)
    ensures TaskFromRecord(TaskRecord(Missing, Given(title), Given(description), Given(dueDate),
                                      Missing, Missing, Missing, Missing, Missing), freshId, now)
            == Success(NewTask(title, description, dueDate, None, freshId, now))
  {
  }

  // ---------------------------------------------------------------------------
  // view_tasks and mark_task_complete

  function HasStatus(status: string): Task -> bool {
    (t: Task) => t.status == status
  }

  /** The selection of `view_tasks(status)`: in stored order, the tasks of
      exactly that status. */
  function ViewTasks(tasks: seq<Task>, status: string): (r: seq<Task>)
    ensures forall t :: t in r <==> t in tasks && t.status == status
    ensures forall i :: 0 <= i < |r| ==> r[i].status == status
  {
    Filter(tasks, HasStatus(status))
  }

  /** The view keeps stored order: viewing a concatenation is concatenating
      the views. */
  lemma ViewTasksAppend(a: seq<Task>, b: seq<Task>, status: string)
    ensures ViewTasks(a + b, status) == ViewTasks(a, status) + ViewTasks(b, status)
  {
    FilterAppend(a, b, HasStatus(status));
  }

  /** Viewing the view again changes nothing. */
  lemma ViewTasksIdempotent(tasks: seq<Task>, status: string)
    ensures ViewTasks(ViewTasks(tasks, status), status) == ViewTasks(tasks, status)
  {
    var r := ViewTasks(tasks, status);
    FilterAll(r, HasStatus(status));
  }

  function IdIs(id: string): Task -> bool {
    (t: Task) => t.id == id
  }

  /** `mark_task_complete`: the first task whose id equals the input becomes
      "complete" and true is returned; with no such task nothing changes and
      false is returned. */
  function MarkTaskComplete(tasks: seq<Task>, id: string): (r: (seq<Task>, bool))
    ensures r.1 <==> exists t :: t in tasks && t.id == id
    ensures !r.1 ==> r.0 == tasks
    ensures |r.0| == |tasks|
    ensures r.1 ==> exists p :: && 0 <= p < |tasks| && tasks[p].id == id
                                && (forall j :: 0 <= j < p ==> tasks[j].id != id)
                                && r.0 == tasks[p := tasks[p].(status := "complete")]
  {
    match FirstIndex(tasks, IdIs(id))
    case None => (tasks, false)
    case Some(p) => (tasks[p := tasks[p].(status := "complete")], true)
  }

  /** Marking the same id twice is marking it once. */
  lemma MarkTaskCompleteIdempotent(tasks: seq<Task>, id: string)
    ensures var once := MarkTaskComplete(tasks, id).0;
            MarkTaskComplete(once, id).0 == once
  {
    var (once, found) := MarkTaskComplete(tasks, id);
    if found {
      var p :| && 0 <= p < |tasks| && tasks[p].id == id
               && (forall j :: 0 <= j < p ==> tasks[j].id != id)
               && once == tasks[p := tasks[p].(status := "complete")];
      assert FirstIndex(once, IdIs(id)) == Some(p) by {
        assert IdIs(id)(once[p]);
        assert forall j :: 0 <= j < p ==> once[j] == tasks[j];
      }
    }
  }
}

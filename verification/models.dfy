/** The records of the final knowledge-and-task manager: a knowledge entry
    and a task, each carrying an explicit enrichment flag, with their
    constructors (defaults for omitted fields) and their JSON form.
    A fresh identifier (`uuid4`) and the current time (`datetime.now()`) are
    parameters: `freshId` and `now`.
 */
module Models {
  import opened Wrappers
  import opened Stored

  datatype KnowledgeEntry = KnowledgeEntry(
    id: string,
    title: string,
    content: string,
    tags: seq<string>,
    createdAt: string,
    summary: Option<string>,
    isSummarized: bool)

  datatype Task = Task(
    id: string,
    title: string,
    description: string,
    dueDate: string,        // YYYY-MM-DD as entered; never parsed here
    status: string,
    priority: string,
    knowledgeLinkId: Option<string>,
    createdAt: string,
    isPrioritized: bool)

  const Pending := "pending"
  const Medium := "medium"

  /** `KnowledgeEntry(...)`: a supplied id, tag list and timestamp are kept as
      given; only an omitted one is replaced by a fresh id, `[]` or `now`. */
  function NewKnowledgeEntry(title: string, content: string, tags: Option<seq<string>>,
                             id: Option<string>, createdAt: Option<string>,
                             summary: Option<string>, isSummarized: bool,
                             freshId: string, now: string): (e: KnowledgeEntry)
    ensures e.title == title && e.content == content
    ensures e.summary == summary && e.isSummarized == isSummarized
    ensures id.Some? ==> e.id == id.value
    ensures id.None? ==> e.id == freshId
    ensures e.tags == (if tags.Some? then tags.value else [])
    ensures createdAt.Some? ==> e.createdAt == createdAt.value
    ensures createdAt.None? ==> e.createdAt == now
  {
    KnowledgeEntry(id.GetOr(freshId), title, content, tags.GetOr([]), createdAt.GetOr(now),
                   summary, isSummarized)
  }

  /** `Task(...)`: the same defaulting rule for id and timestamp; status,
      priority and the flag default to "pending", "medium" and false. */
  function NewTask(title: string, description: string, dueDate: string,
                   knowledgeLinkId: Option<string>, id: Option<string>, createdAt: Option<string>,
                   status: string, priority: string, isPrioritized: bool,
                   freshId: string, now: string): (t: Task)
    ensures t.title == title && t.description == description && t.dueDate == dueDate
    ensures t.knowledgeLinkId == knowledgeLinkId
    ensures t.status == status && t.priority == priority && t.isPrioritized == isPrioritized
    ensures id.Some? ==> t.id == id.value
    ensures id.None? ==> t.id == freshId
    ensures createdAt.Some? ==> t.createdAt == createdAt.value
    ensures createdAt.None? ==> t.createdAt == now
  {
    Task(id.GetOr(freshId), title, description, dueDate, status, priority, knowledgeLinkId,
         createdAt.GetOr(now), isPrioritized)
  }

  /** A knowledge entry created from the menu (title, content, tags only) is unsummarised. */
  lemma CreatedEntryIsUnsummarised(title: string, content: string, tags: Option<seq<string>>,
                                   freshId: string, now: string)
    ensures var e := NewKnowledgeEntry(title, content, tags, None, None, None, false, freshId, now);
            e.summary.None? && !e.isSummarized && e.id == freshId && e.createdAt == now
            && (tags.None? ==> e.tags == [])
  {
  }

  /** A task created from the menu is pending, medium, unprioritised. */
  lemma CreatedTaskIsPendingMedium(title: string, description: string, dueDate: string,
                                   link: Option<string>, freshId: string, now: string)
    ensures var t := NewTask(title, description, dueDate, link, None, None, Pending, Medium, false, freshId, now);
            t.status == "pending" && t.priority == "medium" && !t.isPrioritized
            && t.knowledgeLinkId == link && t.id == freshId
  {
  }

  // ---------------------------------------------------------------------------
  // to_dict / from_dict

  /** `to_dict()`: every field written under its own key; reading the record
      back yields the same entry, whatever fresh id or clock is at hand. */
  function KnowledgeToRecord(e: KnowledgeEntry): (d: KnowledgeRecord)
    ensures forall freshId, now :: KnowledgeFromRecord(d, freshId, now) == Success(e)
  {
    KnowledgeRecord(Given(e.id), Given(e.title), Given(e.content), Given(e.tags),
                    Given(e.createdAt), Put(e.summary), Given(e.isSummarized))
  }

  /** `KnowledgeEntry.from_dict`: KeyError without a title or a content; absent
      optional keys get the constructor's defaults (`tags` [], `is_summarized` false). */
  function KnowledgeFromRecord(d: KnowledgeRecord, freshId: string, now: string): (r: Result<KnowledgeEntry>)
    ensures d.title.Missing? ==> r == Failure(KeyError("title"))
    ensures d.title.Given? && d.content.Missing? ==> r == Failure(KeyError("content"))
    ensures r.Success? <==> d.title.Given? && d.content.Given?
    ensures r.Success? ==> && r.value.title == d.title.value && r.value.content == d.content.value
                           && r.value.id == (if d.id.Given? then d.id.value else freshId)
                           && r.value.tags == (if d.tags.Given? then d.tags.value else [])
                           && r.value.createdAt == (if d.createdAt.Given? then d.createdAt.value else now)
                           && r.value.summary == d.summary.Get()
                           && r.value.isSummarized == (d.isSummarized.Given? && d.isSummarized.value)
  {
    var title :- d.title.Require("title");
    var content :- d.content.Require("content");
    Success(NewKnowledgeEntry(title, content, d.tags.Get(), d.id.Get(), d.createdAt.Get(),
                              d.summary.Get(), d.isSummarized.GetOr(false), freshId, now))
  }

  /** `to_dict()` of a task; reading it back yields the same task. */
  function TaskToRecord(t: Task): (d: TaskRecord)
    ensures forall freshId, now :: TaskFromRecord(d, freshId, now) == Success(t)
  {
    TaskRecord(Given(t.id), Given(t.title), Given(t.description), Given(t.dueDate),
               Given(t.status), Given(t.priority), Put(t.knowledgeLinkId), Given(t.createdAt),
               Given(t.isPrioritized))
  }

  /** `Task.from_dict`: KeyError without title, description or due date (checked
      in that order); absent optional keys default to "pending", "medium", false. */
  function TaskFromRecord(d: TaskRecord, freshId: string, now: string): (r: Result<Task>)
    ensures d.title.Missing? ==> r == Failure(KeyError("title"))
    ensures d.title.Given? && d.description.Missing? ==> r == Failure(KeyError("description"))
    ensures d.title.Given? && d.description.Given? && d.dueDate.Missing? ==> r == Failure(KeyError("due_date"))
    ensures r.Success? <==> d.title.Given? && d.description.Given? && d.dueDate.Given?
    ensures r.Success? ==> && r.value.title == d.title.value
                           && r.value.description == d.description.value
                           && r.value.dueDate == d.dueDate.value
                           && r.value.id == (if d.id.Given? then d.id.value else freshId)
                           && r.value.createdAt == (if d.createdAt.Given? then d.createdAt.value else now)
                           && r.value.knowledgeLinkId == d.knowledgeLinkId.Get()
                           && r.value.status == (if d.status.Given? then d.status.value else "pending")
                           && r.value.priority == (if d.priority.Given? then d.priority.value else "medium")
                           && r.value.isPrioritized == (d.isPrioritized.Given? && d.isPrioritized.value)
  {
    var title :- d.title.Require("title");
    var description :- d.description.Require("description");
    var dueDate :- d.dueDate.Require("due_date");
    Success(NewTask(title, description, dueDate, d.knowledgeLinkId.Get(), d.id.Get(), d.createdAt.Get(),
                    d.status.GetOr(Pending), d.priority.GetOr(Medium), d.isPrioritized.GetOr(false),
                    freshId, now))
  }
}

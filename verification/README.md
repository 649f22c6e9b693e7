# Student knowledge and task managers, modelled in Dafny

The repository is a series of small Python prototypes built around one
idea: a personal store of knowledge entries and tasks, enriched by a
(mocked) language model. This project models the logic of each prototype
as pure Dafny functions over immutable records. It then proves what those
functions promise.

| module | prototype | what is modelled |
|---|---|---|
| `Models` | final manager, records | `KnowledgeEntry` and `Task`: constructor defaults, `to_dict`/`from_dict` |
| `LlmAgent` | final manager, agent | both prompts; the mock model's "summarize" and "prioritize" replies |
| `PkmsManager` | final manager, menu | tag parsing; adding entries and tasks, with link resolution; `list_tasks`; `search_pkm`; `run_agent_cycle` |
| `LegacyAgent` | stand-alone agent | its records with inferred flags, its mock model, `summarize_new_entries`, `prioritize_tasks`, `run` |
| `Assignments`, `AssignmentsManager` | assignment tracker | `Assignment` with priority validation, completion and links; loading, next id, add, list, complete, delete, link, linked titles |
| `Schedule` | school/work schedule | `ScheduleManager` with its id counter, add/remove/find/display, `summarize_text` |
| `TaskCli` | command-line task list | next id, add, the listing order, title search, the typed-priority rule |
| `Prototype1` | first prototype | its records, `view_tasks`, `mark_task_complete` |
| `Prototype2` | chat prototype | `process_query`: intent, target status, keyword matching, routing |

Five shared modules support the models:

- `Wrappers` holds `Option`, `Result` and the Python exceptions the code raises.
- `Text` models Python's string rules: `lower`, `in`, `split()`, `split(sep)`, `strip`, `int()`, `str(n)`, `re.findall(r'\w+')`, `" ".join` and `<`.
- `Seqs` holds a list filter, `next(...)` as a first-index search, and a stable insertion sort standing for `sorted`.
- `Stored` holds the shape of a JSON record. A key is either present or missing.

Clocks and random identifiers are parameters (`now`, `freshId`).
Console input is an argument.
Files are sequences of records.

## Model

| member | source | states |
|---|---|---|
| Models.NewKnowledgeEntry | FinalProject/task6/src/models.py:7-17 | a supplied id, tag list or timestamp is kept; only an omitted one becomes the fresh id, `[]` or now; the summary and flag are as given |
| Models.NewTask | FinalProject/task6/src/models.py:38-51 | the same defaulting for id and timestamp; every other field is taken as given |
| Models.CreatedEntryIsUnsummarised | FinalProject/task6/src/__main__.py:29-36 | an entry created from the menu has no summary, is not flagged summarised, and has a fresh id and the current time |
| Models.CreatedTaskIsPendingMedium | FinalProject/task6/src/__main__.py:69 | a task created from the menu is pending, medium and not flagged prioritised, and carries the chosen link |
| Models.KnowledgeToRecord | FinalProject/task6/src/models.py:19-21 | saving an entry and loading it back gives the same entry, for every fresh id and clock |
| Models.KnowledgeFromRecord | FinalProject/task6/src/models.py:23-34 | KeyError("title") or KeyError("content"), checked in that order, exactly when a required key is missing; otherwise each field is the stored value or the constructor default |
| Models.TaskToRecord | FinalProject/task6/src/models.py:53-55 | saving a task and loading it back gives the same task |
| Models.TaskFromRecord | FinalProject/task6/src/models.py:57-70 | KeyError for title, description and due_date in that order; absent status, priority and flag become "pending", "medium" and false |
| LlmAgent.SummaryLeadLineIsJoin | FinalProject/task6/src/llm_agent.py:34 | the first line of the summarisation prompt is its ten words joined by single spaces |
| LlmAgent.SummaryPromptEmbeds | FinalProject/task6/src/llm_agent.py:34 | the summarisation prompt contains the entry's title and content verbatim |
| LlmAgent.SummaryPromptWords | FinalProject/task6/src/llm_agent.py:34 | the prompt's whitespace tokens are twelve fixed ones plus those of the title and of the content, and the first is "Please" |
| LlmAgent.PriorityPromptEmbeds | FinalProject/task6/src/llm_agent.py:58-64 | the prioritisation prompt contains the title, due date, description and linked context verbatim |
| LlmAgent.PriorityPromptLength | FinalProject/task6/src/llm_agent.py:58-64 | the prioritisation prompt is 181 fixed characters plus the four fields |
| LlmAgent.MockSummarize | FinalProject/task6/src/llm_agent.py:19-21 | IndexError exactly for a prompt with no token; otherwise the reply names the first token and the token count |
| LlmAgent.MockPrioritize | FinalProject/task6/src/llm_agent.py:22-28 | always a level; "high" if and only if an urgency word occurs; "medium" if and only if there is none and the prompt is over 200 characters; otherwise "low" |
| LlmAgent.MockLlmCall | FinalProject/task6/src/llm_agent.py:17-29 | dispatches "summarize" and "prioritize"; any other kind gives "mock_error" |
| LlmAgent.SummarizeEntry | FinalProject/task6/src/llm_agent.py:31-52 | the summary is never empty |
| LlmAgent.SummarizeEntryIsMockReply | FinalProject/task6/src/llm_agent.py:31-52 | the mock never fails on an entry's prompt, so the stored summary is exactly the mock's reply to it and the error branch is never taken |
| LlmAgent.MockSummaryReply | FinalProject/task6/src/llm_agent.py:19-21 | a prompt whose first of n tokens is `focus` gets the reply naming `focus` and n |
| LlmAgent.PrioritizeTask | FinalProject/task6/src/llm_agent.py:55-83 | a level; "high" exactly when the prompt built from the task mentions urgency |
| LlmAgent.LowOnlyForShortTasks | FinalProject/task6/src/llm_agent.py:26-28 | "low" is possible only when title, due date, description and context total at most 19 characters |
| PkmsManager.ParseTags | FinalProject/task6/src/__main__.py:32-33 | no tags when nothing is typed; otherwise tag i is comma-separated part i with surrounding whitespace stripped, so no tag holds a comma or starts or ends with whitespace |
| PkmsManager.AddKnowledgeEntry | FinalProject/task6/src/__main__.py:29-36 | exactly one unsummarised entry is appended, with a fresh id and the parsed tags; the tasks are unchanged |
| PkmsManager.FirstWithPrefix | FinalProject/task6/src/__main__.py:61 | the first entry whose id starts with the token, or none when no id does |
| PkmsManager.ResolveLink | FinalProject/task6/src/__main__.py:44-67 | no link for an empty store or input; a number picks the entry at that 1-based position when in range and otherwise no link; other text picks the first id with that prefix; a chosen link always names an existing entry |
| PkmsManager.AddTask | FinalProject/task6/src/__main__.py:38-71 | exactly one pending, medium, unprioritised task is appended, carrying the resolved link; the knowledge is unchanged |
| PkmsManager.PriorityFirstIsStrictTotal | FinalProject/task6/src/__main__.py:79 | the descending string order used by the sort is a strict total order |
| PkmsManager.ListTasks | FinalProject/task6/src/__main__.py:75-80 | exactly the tasks of the status, a permutation of them, in descending string order of priority, stable within equal priorities |
| PkmsManager.ListTasksPutsHighLast | FinalProject/task6/src/__main__.py:77-80 | as written, a "high" task is listed after every "medium" and "low" task of the status |
| PkmsManager.ListTasksHighLowExample | FinalProject/task6/src/__main__.py:77-80 | the concrete input [high, low] is listed as [low, high] |
| PkmsManager.ListTasksByRank | FinalProject/task6/src/__main__.py:75-80 | the corrected listing: the same tasks, a permutation, high before medium before low, stable |
| PkmsManager.SearchPkm | FinalProject/task6/src/__main__.py:92-102 | nothing for an empty query; otherwise, in stored order, the entries whose lowercased text contains every query word |
| PkmsManager.BlankQueryMatchesAll | FinalProject/task6/src/__main__.py:93-101 | a whitespace-only query passes the emptiness check, has no words, and so returns every entry |
| PkmsManager.FirstWithId | FinalProject/task6/src/__main__.py:142 | the first entry carrying the id, or none when no entry does |
| PkmsManager.FirstWithIdReadsIds | FinalProject/task6/src/__main__.py:142 | the lookup depends only on the ids, so re-summarised entries are found at the same place |
| PkmsManager.LinkedContext | FinalProject/task6/src/__main__.py:140-143 | "" without a link; the linked entry's summary if non-empty, else its content; "No linked content found." for a dangling link |
| PkmsManager.SummarizeOne | FinalProject/task6/src/__main__.py:127-133 | a summarised entry is unchanged; any other one gets the agent's summary and the flag, and nothing else changes |
| PkmsManager.PrioritizeOne | FinalProject/task6/src/__main__.py:137-147 | only a pending unprioritised task changes: it gets the agent's level for its context and the flag |
| PkmsManager.AgentCycle | FinalProject/task6/src/__main__.py:117-152 | afterwards every entry is summarised and no task needs a priority; an unsummarised entry gets the agent's summary; a task needing a priority gets the agent's level for its linked context, read from the already summarised entries; every other record is unchanged; each update flag holds exactly when some record of its kind was enriched |
| PkmsManager.AgentCycleIdempotent | FinalProject/task6/src/__main__.py:127-137 | a second cycle changes nothing and reports no update |
| PkmsManager.CycleUsesFreshSummary | FinalProject/task6/src/__main__.py:126-145 | a task linked to an entry summarised in the same cycle is prioritised with that new summary as context |
| PkmsManager.SummarizeInPlace | FinalProject/task6/src/__main__.py:127-134 | the first loop computes the per-entry rule, and its flag says whether some entry was unsummarised |
| PkmsManager.PrioritizeInPlace | FinalProject/task6/src/__main__.py:137-149 | the second loop computes the per-task rule, and its flag says whether some task needed a priority |
| PkmsManager.RunAgentCycle | FinalProject/task6/src/__main__.py:117-152 | the two loops together give exactly the cycle above |
| LegacyAgent.EntryFromRecord | Protorype3/DataManager.py:40-48 | KeyError for title and content; the flag is inferred as "the summary is present and non-empty" |
| LegacyAgent.EntryToRecord | Protorype3/DataManager.py:37-38 | every field is written, the flag and the timestamp included; an absent id, timestamp or summary is written as absent |
| LegacyAgent.EntryRoundTrip | Protorype3/DataManager.py:37-48 | an entry survives saving and loading if and only if its flag agrees with having a non-empty summary |
| LegacyAgent.TaskFromRecord | Protorype3/DataManager.py:65-74 | KeyError for the three required keys; AttributeError when the priority is absent; otherwise every field is the stored one (absent id, status, link and timestamp stay absent), and the flag is inferred as "the lowercased priority is not medium" |
| LegacyAgent.TaskToRecord | Protorype3/DataManager.py:62-63 | every field is written, the flag included; an absent id, status, link or timestamp is written as absent |
| LegacyAgent.TaskRoundTrip | Protorype3/DataManager.py:62-74 | a task survives saving and loading if and only if its flag agrees with "priority is not medium" |
| LegacyAgent.TaskFromRecordKeepingFlag | Protorype3/DataManager.py:65-74 | the corrected loader reads the stored flag back, so saving and then loading returns every task unchanged |
| LegacyAgent.LegacyMockSummarize | Protorype3/DataManager.py:86-88 | IndexError exactly for a prompt with fewer than three tokens; otherwise the reply names the third token and the prompt's length |
| LegacyAgent.LegacyMockPrioritize | Protorype3/DataManager.py:90-97 | "high" if and only if "deadline", "critical" or "due date" occurs; otherwise "medium" if and only if the prompt is over 300 characters, else "low" |
| LegacyAgent.LegacyMockLlmCall | Protorype3/DataManager.py:78-99 | dispatches on the kind; an unknown kind gives "Error: Unknown task" |
| LegacyAgent.SummaryFailsOnlyForBlankEntries | Protorype3/DataManager.py:123-126 | summarising fails if and only if the title and the content both have no token |
| LegacyAgent.SummarizeNewEntries | Protorype3/DataManager.py:111-132 | IndexError exactly when some entry would fail; otherwise every entry is summarised, the summarised ones are unchanged, each new summary is the mock's reply to that entry's "Title: …\nContent: …" prompt, and the flag says whether any was new |
| LegacyAgent.FirstWithId | Protorype3/DataManager.py:148 | the first entry carrying the id, or none |
| LegacyAgent.LinkedNote | Protorype3/DataManager.py:150 | the summary when non-empty, else the first 100 characters of the content |
| LegacyAgent.Context | Protorype3/DataManager.py:146-150 | the description, followed by a bracketed note on the linked entry exactly when the link resolves |
| LegacyAgent.PrioritizeOne | Protorype3/DataManager.py:144-158 | only a pending unflagged task changes: it gets the mock's level for its context and the flag |
| LegacyAgent.PrioritizeTasks | Protorype3/DataManager.py:134-159 | exactly the pending unflagged tasks are prioritised, each with the mock's level for its context; none needs it afterwards; every other field is kept; the flag says whether any task was prioritised |
| LegacyAgent.Run | Protorype3/DataManager.py:161-176 | summaries first, then priorities; it fails exactly when summarising does; each file is saved exactly when a record of its kind changed |
| LegacyAgent.ReloadTask | Protorype3/DataManager.py:62-74 | the task as the next run loads it after this run saved it |
| LegacyAgent.ReloadTaskKeepingFlag | Protorype3/DataManager.py:62-74 | the same, with the corrected loader |
| LegacyAgent.MediumTaskIsReselected | Protorype3/DataManager.py:73 | a pending task prioritised to "medium" is selected again after a save and a load |
| LegacyAgent.RerunRewritesTasks | Protorype3/DataManager.py:65-74 | after such a run, a second run with no new records prioritises again and rewrites the task file |
| LegacyAgent.RerunKeepingFlagIsQuiet | Protorype3/DataManager.py:136-158 | with the corrected loader, saving and loading changes no task, and a second pass selects nothing |
| LegacyAgent.SummarisedEntriesSurviveReload | Protorype3/DataManager.py:123-130 | every summary the agent writes is non-empty, so summarised entries reload as summarised |
| Assignments.NewAssignment | task5/src/app.py:9-23 | ValueError exactly when the priority is outside 1..5; otherwise the fields are as given, and no link list means no links |
| Assignments.Complete | task5/src/app.py:25-27 | the status becomes "Complete" and nothing else changes |
| Assignments.CompleteIdempotent | task5/src/app.py:25-27 | completing twice is completing once |
| Assignments.AddLinkTo | task5/src/app.py:29-32 | afterwards the target is linked; it is appended only when absent, and nothing else changes |
| Assignments.AddLinkToIdempotent | task5/src/app.py:29-32 | linking twice is linking once |
| Assignments.AddLinkToKeepsNoDuplicates | task5/src/app.py:29-32 | the link list stays free of duplicates |
| Assignments.EqualIgnoresOnlyNotes | task5/src/app.py:43-51 | two assignments are `==` if and only if they agree on every field except the notes |
| AssignmentsManager.ConvertLinks | task5/src/tasks_manager.py:44-45 | fails exactly when `int()` rejects some stored link, with the error of the first rejected one (ValueError for text that is not an integer, TypeError for null, a list or an object); otherwise each link is converted in place, a boolean becoming 0 or 1 |
| AssignmentsManager.FromRecord | task5/src/tasks_manager.py:42-46 | a record constructs if and only if its links convert, it has no unknown key, it has the required keys and the priority is valid; the fields are then the stored ones, with notes defaulting to "" and status to "Pending" |
| AssignmentsManager.FromRecordDefaults | task5/src/tasks_manager.py:42-46 | a stored object without notes, status or links loads with notes "", status "Pending" and no links |
| AssignmentsManager.LoadAssignments | task5/src/tasks_manager.py:34-52 | the loaded assignments are exactly those some record constructs, all with valid priorities |
| AssignmentsManager.LoadAppend | task5/src/tasks_manager.py:40-50 | loading goes record by record, in file order |
| AssignmentsManager.LoadSkipsBadRecord | task5/src/tasks_manager.py:47-50 | a record that fails to construct contributes nothing, and the rest still load |
| AssignmentsManager.MaxId | task5/src/tasks_manager.py:32 | an upper bound of the ids that some assignment attains |
| AssignmentsManager.NextIdAfter | task5/src/tasks_manager.py:32 | 1 for no assignments; otherwise one above the largest id |
| AssignmentsManager.Init | task5/src/tasks_manager.py:31-32 | the loaded list, with the next id above all of its ids |
| AssignmentsManager.AddAssignment | task5/src/tasks_manager.py:60-76 | ValueError with no change exactly for an invalid priority; otherwise one pending, unlinked assignment with the next id is appended, and the counter moves on |
| AssignmentsManager.AddAssignmentKeepsIdsUnique | task5/src/tasks_manager.py:66-74 | adding keeps every id below the counter and all ids unique |
| AssignmentsManager.DateBeforeIsStrictTotal | task5/src/tasks_manager.py:80 | the date order is a strict total order |
| AssignmentsManager.ListAssignments | task5/src/tasks_manager.py:78-80 | a permutation of the assignments, earliest due date first, stable for equal dates |
| AssignmentsManager.IndexOfId | task5/src/tasks_manager.py:84-85 | the first position carrying the id, or none |
| AssignmentsManager.GetAssignment | task5/src/tasks_manager.py:115-117 | present if and only if some assignment has the id; it is then that stored assignment |
| AssignmentsManager.CompleteAssignment | task5/src/tasks_manager.py:82-89 | true if and only if the id exists; then only the first match is completed; otherwise there is no change |
| AssignmentsManager.CompletedIsSeenComplete | task5/src/tasks_manager.py:82-117 | after completing an existing id, looking it up shows "Complete" |
| AssignmentsManager.RemoveFirst | task5/src/tasks_manager.py:99-100 | `list.remove`: unchanged when absent; otherwise exactly the first occurrence is cut out and the other elements keep their order |
| AssignmentsManager.RemoveFirstFromNoDuplicates | task5/src/tasks_manager.py:99-100 | from a duplicate-free list the element is gone altogether, and the list stays duplicate-free |
| AssignmentsManager.WithoutId | task5/src/tasks_manager.py:95 | exactly the assignments with a different id |
| AssignmentsManager.DeleteAssignment | task5/src/tasks_manager.py:91-102 | every assignment with the id is gone; the rest keep their order, and each loses the first occurrence of the id from its links, keeping the other links in order, and nothing else |
| AssignmentsManager.DeleteLeavesNoDanglingLink | task5/src/tasks_manager.py:97-100 | with duplicate-free links, no link to the deleted id remains |
| AssignmentsManager.AddLink | task5/src/tasks_manager.py:104-113 | true if and only if both ids exist and differ; then only the first source links the target; otherwise there is no change |
| AssignmentsManager.AddLinkIdempotent | task5/src/tasks_manager.py:104-113 | linking the same pair twice is linking it once |
| AssignmentsManager.AddLinkKeepsLinksClean | task5/src/tasks_manager.py:109-110 | links stay duplicate-free and never point to their own assignment |
| AssignmentsManager.GetLinkedTitles | task5/src/tasks_manager.py:119-133 | [] for an unknown id; otherwise, in link order, the id and title of each linked id still present |
| AssignmentsManager.DeletedNeverListed | task5/src/tasks_manager.py:91-133 | after a deletion no linked-titles listing mentions the deleted id |
| AssignmentsManager.LinkedTargetIsListed | task5/src/tasks_manager.py:104-133 | a successful link shows up among the source's linked titles |
| Schedule.Init | tasks4/main.py:15-20 | both schedules are empty, the counter is at 1, and the id invariant holds |
| Schedule.ValidMeansUniqueIds | tasks4/main.py:38-42 | in every manager keeping the invariant, ids are unique across both schedules |
| Schedule.ScheduleKind | tasks4/main.py:24-36 | TypeError for a non-string; "school" and "work" are matched ignoring case; any other text gives ValueError |
| Schedule.ScheduleKindIgnoresCase | tasks4/main.py:31 | names equal up to case select the same schedule |
| Schedule.GenerateId | tasks4/main.py:38-42 | the id is the decimal text of the counter, which moves on by one |
| Schedule.GeneratedIdsDiffer | tasks4/main.py:38-42 | two ids drawn in turn differ |
| Schedule.AddItem | tasks4/main.py:46-59 | a bad schedule name fails before an id is drawn; otherwise the item with the next id is appended to that schedule only |
| Schedule.NextIdIsUnused | tasks4/main.py:40-41 | no stored item has the id issued next |
| Schedule.AddItemKeepsValid | tasks4/main.py:46-59 | adding keeps the id invariant |
| Schedule.RemoveAt | tasks4/main.py:73-84 | `list.pop(k)`: the elements before k stay in place and the later ones shift down by one |
| Schedule.Position | tasks4/main.py:72-87 | an int in range is the position itself, else IndexError; a str gives the first item with that id, else ValueError; any other type gives TypeError |
| Schedule.RemoveItem | tasks4/main.py:61-87 | the schedule name is checked first, then the identifier; on success the item at that position is taken out and returned, and the other schedule and the counter are untouched |
| Schedule.RemoveItemKeepsValid | tasks4/main.py:61-87 | removal keeps the id invariant |
| Schedule.RemoveByIdRemovesId | tasks4/main.py:80-84 | after a removal by id, no item of that schedule carries the id |
| Schedule.RemoveAddedItem | tasks4/main.py:46-87 | adding and then removing by the returned id restores both schedules; only the counter has moved |
| Schedule.RemoveAppendedItem | tasks4/main.py:80-84 | removing, by its id, an item appended after items with other ids takes out exactly that item |
| Schedule.FindItem | tasks4/main.py:98-104 | the schedule-name errors; otherwise the first item of that schedule with that id, or None exactly when there is none |
| Schedule.FindAddedItem | tasks4/main.py:46-104 | a freshly added item is found by its id |
| Schedule.FindRemovedItem | tasks4/main.py:80-104 | once removed by id, the id is not found in that schedule |
| Schedule.DisplaySchedule | tasks4/main.py:89-96 | None or "both" in any case gives both schedules; otherwise the named schedule, or the schedule-name error |
| Schedule.DisplayBothIsEachSchedule | tasks4/main.py:89-96 | "school", "work" and None give the school list, the work list and both |
| Schedule.FirstLine | tasks4/main.py:182-184 | the quoted phrase has no line break and no surrounding whitespace |
| Schedule.SummarizeText | tasks4/main.py:175-186 | the result is "Summary: '", the phrase and "...'" |
| Schedule.FirstLineIsBeforeBreak | tasks4/main.py:182-184 | the phrase is the stripped text up to the first line break of the stripped description |
| Schedule.SummarizeOneLine | tasks4/main.py:182-186 | a one-line description is quoted in full, stripped |
| TaskCli.MaxId | tasks1/task_cli.py:34 | an upper bound of the ids that some task attains |
| TaskCli.NextId | tasks1/task_cli.py:31-34 | 1 for no tasks; otherwise above every id and one more than some id |
| TaskCli.ComputeNextId | tasks1/task_cli.py:31-34 | one pass keeping the largest id seen gives the same next id |
| TaskCli.AddTask | tasks1/task_cli.py:36-47 | one "TODO" task is appended with the given title and priority and id `NextId(tasks)`: one above the largest id, so above every existing one (1 for an empty list) |
| TaskCli.AddTaskKeepsIdsUnique | tasks1/task_cli.py:36-45 | adding keeps ids unique |
| TaskCli.ListTasks | tasks1/task_cli.py:56 | a permutation of the tasks, ascending priority, stable within equal priorities |
| TaskCli.ListTasksIdempotent | tasks1/task_cli.py:56 | listing an already listed sequence leaves it as it is |
| TaskCli.ListTasksDeterminedByPriorityClasses | tasks1/task_cli.py:56 | stores with the same tasks of each priority, in the same order, list identically |
| TaskCli.SearchTasks | tasks1/task_cli.py:77-82 | in stored order, exactly the tasks whose lowercased title contains the lowercased keyword |
| TaskCli.SearchTasksAppend | tasks1/task_cli.py:79-82 | the search keeps stored order: it distributes over concatenation |
| TaskCli.SearchTasksEmptyKeyword | tasks1/task_cli.py:81 | the empty keyword matches every task |
| TaskCli.PriorityFromInput | tasks1/task_cli.py:109-116 | always in 1..5; a typed integer in range is kept; anything else, or nothing, gives 3 |
| TaskCli.PriorityFromInputOfLevel | tasks1/task_cli.py:109-113 | typing any level 1..5 gives that level |
| Prototype1.NewEntry | Prototype1/__init__.py:31-37 | a fresh id, the current time, no summary, and no tags when none or an empty list is given |
| Prototype1.NewTask | Prototype1/__init__.py:52-60 | pending, medium, a fresh id and the given link |
| Prototype1.EntryToRecord | Prototype1/__init__.py:39-40 | id, title, content, tags, timestamp and summary are written; there is no enrichment flag |
| Prototype1.EntryFromRecord | Prototype1/__init__.py:42-48 | KeyError for title and content, in that order; otherwise title and content are the stored ones, tags, summary and timestamp are stored or default, and a missing id is replaced by a fresh one |
| Prototype1.EntryRoundTrip | Prototype1/__init__.py:39-48 | saving and loading gives the same entry |
| Prototype1.TaskToRecord | Prototype1/__init__.py:62-63 | every field is written, the link as absent when there is none; there is no flag |
| Prototype1.TaskFromRecord | Prototype1/__init__.py:65-72 | KeyError for the three required keys, in order; otherwise title, description, due date and link are the stored ones, and absent id, status, priority and time become a fresh id, "pending", "medium" and now |
| Prototype1.TaskRoundTrip | Prototype1/__init__.py:62-72 | saving and loading gives the same task |
| Prototype1.BareTaskRecordIsNewTask | Prototype1/__init__.py:52-72 | a record holding only the required keys loads as a newly created task |
| Prototype1.ViewTasks | Prototype1/__init__.py:98-100 | in stored order, exactly the tasks of the status |
| Prototype1.ViewTasksAppend | Prototype1/__init__.py:100 | the view distributes over concatenation |
| Prototype1.ViewTasksIdempotent | Prototype1/__init__.py:100 | viewing the view changes nothing |
| Prototype1.MarkTaskComplete | Prototype1/__init__.py:109-117 | true if and only if some task has the id; then only the first such task becomes "complete"; otherwise nothing changes |
| Prototype1.MarkTaskCompleteIdempotent | Prototype1/__init__.py:112-116 | marking the same id twice is marking it once |
| Prototype2.Keywords | Prototype2/__init__.py:88-89 | the keywords are non-empty runs of word characters |
| Prototype2.KeywordsOfJoined | Prototype2/__init__.py:89 | the keywords of `a + " " + b` are those of a followed by those of b |
| Prototype2.TargetStatus | Prototype2/__init__.py:94-99 | always "pending" or "complete"; "complete" if and only if "complete" occurs and neither "pending" nor "open" does |
| Prototype2.TaskResults | Prototype2/__init__.py:102-106 | exactly the tasks of the target status in which some keyword occurs in the lowercased title or description |
| Prototype2.KnowledgeResults | Prototype2/__init__.py:118-122 | exactly the entries in which some keyword occurs in the lowercased title, content and joined tags |
| Prototype2.KnowledgeMatchIsDisjunctive | Prototype2/__init__.py:121 | an entry found for a question is still found when words are added |
| Prototype2.NoKeywordsNoKnowledge | Prototype2/__init__.py:121 | a question with no keywords finds no entry |
| Prototype2.ProcessQuery | Prototype2/__init__.py:86-130 | a task question, and only such a question, is answered from the tasks with the target status; an empty task result is reported as such; any other question is answered from the knowledge or with the fallback |
| Prototype2.TaskQuestionIgnoresKnowledge | Prototype2/__init__.py:92-113 | the reply to a task question does not depend on the knowledge entries |
| Prototype2.KnowledgeQuestionIgnoresTasks | Prototype2/__init__.py:115-130 | the reply to any other question does not depend on the tasks |
| Text.SplitOn | FinalProject/task6/src/__main__.py:33 | `str.split(sep)`: never empty, no part holds the separator, and joining with the separator gives the text back |
| Text.ParseIntOfStripped | tasks1/task_cli.py:109-111 | `int()` ignores surrounding whitespace and finds no number in blank text |
| Text.ParseIntOfNatToString | tasks1/task_cli.py:111 | `int(str(n)) == n` |
| Seqs.SortBy | tasks1/task_cli.py:56 | `sorted` with a key: a permutation in key order, stable within equal keys |
| Seqs.SortedUnique | tasks1/task_cli.py:56 | a stable sort's result is determined by the elements of each key in their original order |

## Left out

- File persistence is not modelled: JSON reading and writing, `os.makedirs`, and the save methods. Files are sequences of records, and a missing key and a JSON `null` are both "missing".
- `uuid.uuid4()` and `datetime.now()` become the parameters `freshId` and `now`.
- `time.sleep` in `summarize_text` has no observable effect on the result.
- Console I/O, menus and printed formatting are not modelled. This covers the `run_cli`, `main` and `run` loops, `_format_*`, `print_header`, and every message text.
- `process_loop` is not modelled: it only hands deep copies of the items of one or both schedules to a caller-supplied callback, an effect the model does not represent. A bad schedule name raises the same errors as `_get_schedule_list`, which `Schedule.ScheduleKind` models. `interactive_menu` is console I/O and is not modelled either.
- `tasks1` `main` lowercases the whole command line before the title is read, so menu titles arrive lowercased. The model takes the title as given.
- `datetime.fromisoformat` is not modelled. Due dates are (year, month, day) triples, ordered as `datetime` orders them, and parsing them is left out.
- Strings are sequences of code points. `lower` folds ASCII letters only, `\w` is ASCII letters, digits and `_`, and `split()` whitespace is the set `str.isspace` accepts. `int()` accepts an optional sign and ASCII digits, without `_` separators.
- Python's `bool` is a subclass of `int`, so `remove_item(..., True)` takes index 1. The model treats booleans as `OtherValue`, so they raise TypeError.
- The stored `priority` and `id` in the assignment tracker are taken to be JSON integers. A stored link is a JSON integer, boolean or string, or another value that `int()` rejects by type. A fractional JSON number as a link is not modelled: `int()` would truncate it.
- The real OpenAI calls are commented out in the source and are not modelled. Only the deterministic mock is.
- The chat prototype's `from_dict` is not modelled separately. Its `status`, `priority` and `id` are `Option` values in the records, because `data.get` without a default gives None.
- The first prototype's `add_knowledge_entry` and `add_task` are not modelled separately. The first parses tags exactly as `PkmsManager.ParseTags` does. The second only turns an empty link into None.
- LlmAgent.SummaryPromptWords: states the token count and the first token of the summarisation prompt, not the whole token list.
- Schedule.FirstLine: the fallback "No content found." of `summarize_text` is unreachable, because `split('\n')` never returns an empty list. The model has no such branch.
- Prototype2.TargetStatus: "complete" is found inside "incomplete" as well. The model keeps this substring behaviour.

## Findings

| source | as written | input that shows it | evidently intended | confidence | as-written member | corrected member |
|---|---|---|---|---|---|---|
| FinalProject/task6/src/__main__.py:77-80 | `sorted(..., key=lambda t: t.priority, reverse=True)` compares the level strings, so the order is medium, low, high | pending tasks with priorities "high" and "low" are listed low first, high last | high before medium before low | not executed | PkmsManager.ListTasksHighLowExample | PkmsManager.ListTasksByRank |
| Protorype3/DataManager.py:73 | the loader infers `is_prioritized` as `priority.lower() not in ["medium"]`, ignoring the stored flag | a pending task the mock rated "medium" (a context of more than 300 characters containing none of "deadline", "critical", "due date") is re-selected after every save and load | a prioritised task is not prioritised again | not executed | LegacyAgent.RerunRewritesTasks | LegacyAgent.RerunKeepingFlagIsQuiet |

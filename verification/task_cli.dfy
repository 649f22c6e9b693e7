/** The first command-line task list: tasks with integer ids and integer
    priorities, the next-id rule, adding, the listing order, the title search
    and the rule that turns the typed priority into a number. The clock is a
    parameter; the file and the console are not modelled.
 */
module TaskCli {
  import opened Wrappers
  import opened Text
  import opened Seqs

  datatype CliTask = CliTask(id: int, title: string, status: string, priority: int, createdAt: string)

  /** The priority a task gets when none, or an unusable one, is typed. */
  const DefaultPriority := 3

  // ---------------------------------------------------------------------------
  // get_next_id

  /** `max(task['id'] for task in tasks)`. */
  function MaxId(tasks: seq<CliTask>): (r: int)
    requires |tasks| > 0
    ensures forall t :: t in tasks ==> t.id <= r
    ensures exists t :: t in tasks && t.id == r
  {
    if |tasks| == 1 then tasks[0].id
    else
      var rest := MaxId(tasks[1..]);
      assert forall t :: t in tasks ==> t == tasks[0] || t in tasks[1..];
      if tasks[0].id >= rest then tasks[0].id else rest
  }

  /** `get_next_id`: 1 for no tasks, else one above the largest id. */
  function NextId(tasks: seq<CliTask>): (r: int)
    ensures |tasks| == 0 ==> r == 1
    ensures forall t :: t in tasks ==> t.id < r
    ensures |tasks| > 0 ==> exists t :: t in tasks && t.id == r - 1
  {
    if |tasks| == 0 then 1 else MaxId(tasks) + 1
  }

  /** The same rule computed by one pass over the list, keeping the largest
      id seen so far. */
  method ComputeNextId(tasks: seq<CliTask>) returns (next: int)
    ensures next == NextId(tasks)
  {
    if |tasks| == 0 {
      return 1;
    }
    var best := tasks[0].id;
    var i := 1;
    while i < |tasks|
      invariant 1 <= i <= |tasks|
      invariant forall j :: 0 <= j < i ==> tasks[j].id <= best
      invariant exists j :: 0 <= j < i && tasks[j].id == best
    {
      if tasks[i].id > best {
        best := tasks[i].id;
      }
      i := i + 1;
    }
    var m := MaxId(tasks);
    assert best <= m;
    assert m <= best by {
      var t :| t in tasks && t.id == m;
    }
    next := best + 1;
  }

  // ---------------------------------------------------------------------------
  // add_task

  /** `add_task`: one task appended with the next id and status "TODO". */
  function AddTask(tasks: seq<CliTask>, title: string, priority: int, now: string): (r: seq<CliTask>)
    ensures |r| == |tasks| + 1 && r[..|tasks|] == tasks
    ensures var t := r[|tasks|];
            && t.title == title && t.priority == priority && t.status == "TODO" && t.createdAt == now
            && t.id == NextId(tasks)
            && (forall u :: u in tasks ==> u.id < t.id)
            && (|tasks| == 0 ==> t.id == 1)
  {
    tasks + [CliTask(NextId(tasks), title, "TODO", priority, now)]
  }

  predicate UniqueIds(tasks: seq<CliTask>) {
    forall i, j :: 0 <= i < j < |tasks| ==> tasks[i].id != tasks[j].id
  }

  /** Adding keeps the ids unique, and the new id is the largest. */
  lemma AddTaskKeepsIdsUnique(tasks: seq<CliTask>, title: string, priority: int, now: string)
    requires UniqueIds(tasks)
    ensures UniqueIds(AddTask(tasks, title, priority, now))
  {
    var r := AddTask(tasks, title, priority, now);
    forall i, j | 0 <= i < j < |r|
      ensures r[i].id != r[j].id
    {
      assert r[i] == tasks[i];
      if j < |tasks| {
        assert r[j] == tasks[j];
      } else {
        assert r[i] in tasks;
      }
    }
  }

  // ---------------------------------------------------------------------------
  // list_tasks

  function PriorityOf(t: CliTask): int {
    t.priority
  }

  predicate IntLess(a: int, b: int) {
    a < b
  }

  lemma IntLessIsStrictTotal()
    ensures StrictTotalOrder(IntLess)
  {
  }

  /** `sorted(tasks, key=lambda t: t['priority'])`: every task once, lowest
      priority number first, tasks of equal priority in stored order. */
  function ListTasks(tasks: seq<CliTask>): (r: seq<CliTask>)
    ensures multiset(r) == multiset(tasks)
    ensures forall i, j :: 0 <= i < j < |r| ==> r[i].priority <= r[j].priority
    ensures forall p :: KeyClass(r, PriorityOf, p) == KeyClass(tasks, PriorityOf, p)
  {
    IntLessIsStrictTotal();
    SortBy(tasks, PriorityOf, IntLess)
  }

  /** A list already in priority order is listed as it stands, so listing
      twice is listing once. */
  lemma ListTasksIdempotent(tasks: seq<CliTask>)
    ensures ListTasks(ListTasks(tasks)) == ListTasks(tasks)
  {
    IntLessIsStrictTotal();
    SortBySorted(ListTasks(tasks), PriorityOf, IntLess);
  }

  /** The listing is fixed by the tasks of each priority in stored order:
      two stores that agree on those list the same. */
  lemma ListTasksDeterminedByPriorityClasses(a: seq<CliTask>, b: seq<CliTask>)
    requires forall p :: KeyClass(a, PriorityOf, p) == KeyClass(b, PriorityOf, p)
    ensures ListTasks(a) == ListTasks(b)
  {
    IntLessIsStrictTotal();
    var ra, rb := ListTasks(a), ListTasks(b);
    forall p
      ensures KeyClass(ra, PriorityOf, p) == KeyClass(rb, PriorityOf, p)
    {
      assert KeyClass(ra, PriorityOf, p) == KeyClass(a, PriorityOf, p);
      assert KeyClass(rb, PriorityOf, p) == KeyClass(b, PriorityOf, p);
    }
    SortedUnique(ra, rb, PriorityOf, IntLess);
  }

  // ---------------------------------------------------------------------------
  // search_tasks

  function TitleHas(keyword: string): CliTask -> bool {
    (t: CliTask) => Contains(Lower(t.title), Lower(keyword))
  }

  /** `search_tasks`: in stored order, the tasks whose lower-cased title
      contains the lower-cased keyword. */
  function SearchTasks(tasks: seq<CliTask>, keyword: string): (r: seq<CliTask>)
    ensures forall t :: t in r <==> t in tasks && Contains(Lower(t.title), Lower(keyword))
    ensures |r| <= |tasks|
  {
    Filter(tasks, TitleHas(keyword))
  }

  /** The search keeps stored order: searching a concatenation is
      concatenating the searches. */
  lemma SearchTasksAppend(a: seq<CliTask>, b: seq<CliTask>, keyword: string)
    ensures SearchTasks(a + b, keyword) == SearchTasks(a, keyword) + SearchTasks(b, keyword)
  {
    FilterAppend(a, b, TitleHas(keyword));
  }

  /** The empty keyword matches every task. */
  lemma SearchTasksEmptyKeyword(tasks: seq<CliTask>)
    ensures SearchTasks(tasks, "") == tasks
  {
    forall i | 0 <= i < |tasks|
      ensures TitleHas("")(tasks[i])
    {
      assert Lower("") == "";
      ContainsEmpty(Lower(tasks[i].title));
    }
    FilterAll(tasks, TitleHas(""));
  }

  // ---------------------------------------------------------------------------
  // The priority prompt of the menu

  /** The typed priority: stripped, "3" when nothing is typed, then `int()`;
      a value that does not parse or lies outside 1..5 becomes 3. */
  function PriorityFromInput(typed: string): (r: int)
    ensures 1 <= r <= 5
    ensures ParseInt(typed).Some? && 1 <= ParseInt(typed).value <= 5 ==> r == ParseInt(typed).value
    ensures ParseInt(typed).None? || !(1 <= ParseInt(typed).value <= 5) ==> r == DefaultPriority
  {
    var s := Strip(typed);
    var text := if s == "" then "3" else s;
    assert ParseInt(text) == ParseInt(typed) || (s == "" && ParseInt(typed).None?) by {
      ParseIntOfStripped(typed);
    }
    ParseIntOfThree();
    match ParseInt(text)
    case None => DefaultPriority
    case Some(p) => if 1 <= p <= 5 then p else DefaultPriority
  }

  lemma ParseIntOfThree()
    ensures ParseInt("3") == Some(3)
  {
    assert NatToString(3) == "3";
    ParseIntOfNatToString(3);
  }

  /** Typing any of the levels 1..5 gives that level. */
  lemma PriorityFromInputOfLevel(n: nat)
    requires 1 <= n <= 5
    ensures PriorityFromInput(NatToString(n)) == n
  {
    ParseIntOfNatToString(n);
  }
}

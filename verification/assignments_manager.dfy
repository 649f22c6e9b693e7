/** The assignment store: loading (skipping bad records), sequential ids,
    adding, completing, deleting with link clean-up, linking, look-ups and
    the due-date listing. Every operation saves the list; saving is not
    modelled, the store is the in-memory list and the next id.
 */
module AssignmentsManager {
  import opened Wrappers
  import opened Text
  import opened Seqs
  import opened Stored
  import opened Assignments

  // ---------------------------------------------------------------------------
  // _load_assignments

  /** One stored link: a JSON integer, a JSON boolean, text that `int()` may
      or may not accept, or any other JSON value `int()` rejects by type
      (`null`, a list, an object). */
  datatype LinkValue = IntLink(n: int) | BoolLink(b: bool) | TextLink(text: string) | OtherLink

  /** One stored assignment object; `unknownKey` marks a key the constructor does not accept. */
  datatype AssignmentRecord = AssignmentRecord(
    id: Slot<int>,
    title: Slot<string>,
    course: Slot<string>,
    dueDate: Slot<Date>,
    priority: Slot<int>,
    notes: Slot<string>,
    status: Slot<string>,
    linkedIds: Slot<seq<LinkValue>>,
    unknownKey: bool)

  /** `int(v)` of one stored link: a boolean is 0 or 1, text must parse
      (ValueError otherwise), any other value raises TypeError. */
  function LinkToInt(v: LinkValue): Result<int> {
    match v
    case IntLink(n) => Success(n)
    case BoolLink(b) => Success(if b then 1 else 0)
    case TextLink(s) => if ParseInt(s).Some? then Success(ParseInt(s).value) else Failure(ValueError)
    case OtherLink => Failure(TypeError)
  }

  /** `[int(i) for i in linked_ids]`: the error of the first element `int()`
      rejects, else every element converted in place. */
  function ConvertLinks(vs: seq<LinkValue>): (r: Result<seq<int>>)
    ensures r.Failure? <==> exists i :: 0 <= i < |vs| && LinkToInt(vs[i]).Failure?
    ensures r.Failure? ==> exists i :: && 0 <= i < |vs| && LinkToInt(vs[i]) == Failure(r.error)
                                       && forall j :: 0 <= j < i ==> LinkToInt(vs[j]).Success?
    ensures r.Success? ==> |r.value| == |vs| && forall i :: 0 <= i < |vs| ==> LinkToInt(vs[i]) == Success(r.value[i])
  {
    if |vs| == 0 then Success([])
    else
      match LinkToInt(vs[0])
      case Failure(e) => Failure(e)
      case Success(n) =>
        match ConvertLinks(vs[1..])
        case Failure(e) =>
          var i :| && 0 <= i < |vs| - 1 && LinkToInt(vs[1..][i]) == Failure(e)
                   && forall j :: 0 <= j < i ==> LinkToInt(vs[1..][j]).Success?;
          assert LinkToInt(vs[i + 1]) == Failure(e);
          assert forall j :: 0 <= j < i + 1 ==> LinkToInt(vs[j]).Success? by {
            forall j | 0 <= j < i + 1
              ensures LinkToInt(vs[j]).Success?
            {
              if j > 0 { assert vs[j] == vs[1..][j - 1]; }
            }
          }
          Failure(e)
        case Success(rest) =>
          assert forall i :: 1 <= i < |vs| ==> LinkToInt(vs[i]) == Success(rest[i - 1]);
          Success([n] + rest)
  }

  predicate HasRequiredKeys(d: AssignmentRecord) {
    d.id.Given? && d.title.Given? && d.course.Given? && d.dueDate.Given? && d.priority.Given?
  }

  function StoredLinks(d: AssignmentRecord): Result<Option<seq<int>>> {
    if d.linkedIds.Missing? then Success(None)
    else
      var links :- ConvertLinks(d.linkedIds.value);
      Success(Some(links))
  }

  /** `Assignment(**d)` after the link conversion. It succeeds exactly when
      the links convert, no key is unknown, every required key is present
      and the priority is in 1..5; the defaults are notes "", status
      "Pending" and no links. */
  function FromRecord(d: AssignmentRecord): (r: Result<Assignment>)
    ensures r.Success? <==> && StoredLinks(d).Success? && !d.unknownKey && HasRequiredKeys(d)
                            && ValidPriority(d.priority.value)
    ensures r.Success? ==> && r.value.id == d.id.value && r.value.title == d.title.value
                           && r.value.course == d.course.value && r.value.dueDate == d.dueDate.value
                           && r.value.priority == d.priority.value
                           && r.value.notes == d.notes.GetOr("") && r.value.status == d.status.GetOr("Pending")
                           && r.value.linkedIds == StoredLinks(d).value.GetOr([])
  {
    var links :- StoredLinks(d);
    if d.unknownKey || !HasRequiredKeys(d) then Failure(TypeError)
    else
      NewAssignment(d.id.value, d.title.value, d.course.value, d.dueDate.value, d.priority.value,
                    d.notes.GetOr(""), d.status.GetOr("Pending"), links)
  }

  /** A stored object without notes, status or links loads with the
      constructor's defaults: notes "", status "Pending", no links. */
  lemma FromRecordDefaults(id: int, title: string, course: string, dueDate: Date, priority: int)
    requires ValidPriority(priority)
    ensures var d := AssignmentRecord(Given(id), Given(title), Given(course), Given(dueDate), Given(priority),
                                      Missing, Missing, Missing, false);
            FromRecord(d) == Success(Assignment(id, title, course, dueDate, priority, "", "Pending", []))
  {
  }

  /** The loaded list: the records that construct, in file order; the others
      are skipped. */
  function LoadAssignments(ds: seq<AssignmentRecord>): (r: seq<Assignment>)
    ensures |r| <= |ds|
    ensures forall a :: a in r <==> Loads(ds, a)
    ensures forall i :: 0 <= i < |r| ==> ValidPriority(r[i].priority)
  {
    if |ds| == 0 then []
    else
      var rest := LoadAssignments(ds[1..]);
      assert forall a :: Loads(ds, a) <==> FromRecord(ds[0]) == Success(a) || Loads(ds[1..], a) by {
        forall a
          ensures Loads(ds, a) <==> FromRecord(ds[0]) == Success(a) || Loads(ds[1..], a)
        {
          if Loads(ds, a) {
            var i :| 0 <= i < |ds| && FromRecord(ds[i]) == Success(a);
            if i > 0 {
              assert FromRecord(ds[1..][i - 1]) == Success(a);
            }
          }
          if Loads(ds[1..], a) {
            var i :| 0 <= i < |ds[1..]| && FromRecord(ds[1..][i]) == Success(a);
            assert FromRecord(ds[i + 1]) == Success(a);
          }
        }
      }
      match FromRecord(ds[0])
      case Success(a) => [a] + rest
      case Failure(_) => rest
  }

  /** Some record of `ds` constructs `a`. */
  predicate Loads(ds: seq<AssignmentRecord>, a: Assignment) {
    exists i :: 0 <= i < |ds| && FromRecord(ds[i]) == Success(a)
  }

  /** Loading is record by record: it distributes over concatenation, so
      the kept records keep their relative order. */
  lemma {:induction false} LoadAppend(xs: seq<AssignmentRecord>, ys: seq<AssignmentRecord>)
    ensures LoadAssignments(xs + ys) == LoadAssignments(xs) + LoadAssignments(ys)
  {
    if |xs| == 0 {
      assert xs + ys == ys;
    } else {
      assert (xs + ys)[0] == xs[0];
      assert (xs + ys)[1..] == xs[1..] + ys;
      LoadAppend(xs[1..], ys);
    }
  }

  /** A record that does not construct adds nothing to what is loaded. */
  lemma LoadSkipsBadRecord(xs: seq<AssignmentRecord>, d: AssignmentRecord, ys: seq<AssignmentRecord>)
    requires FromRecord(d).Failure?
    ensures LoadAssignments(xs + [d] + ys) == LoadAssignments(xs) + LoadAssignments(ys)
  {
    assert xs + [d] + ys == xs + ([d] + ys);
    LoadAppend(xs, [d] + ys);
    assert ([d] + ys)[0] == d && ([d] + ys)[1..] == ys;
  }

  // ---------------------------------------------------------------------------
  // The store and its next id

  datatype Manager = Manager(assignments: seq<Assignment>, nextId: int)

  function MaxId(xs: seq<Assignment>): (m: int)
    requires |xs| > 0
    ensures forall i :: 0 <= i < |xs| ==> xs[i].id <= m
    ensures exists i :: 0 <= i < |xs| && xs[i].id == m
  {
    if |xs| == 1 then xs[0].id
    else
      var rest := MaxId(xs[1..]);
      assert exists i :: 1 <= i < |xs| && xs[i].id == rest;
      if xs[0].id >= rest then xs[0].id else rest
  }

  /** `max([a.id for a in assignments], default=0) + 1`: above every id, and
      1 for an empty store, else exactly one above the largest id. */
  function NextIdAfter(xs: seq<Assignment>): (n: int)
    ensures forall i :: 0 <= i < |xs| ==> xs[i].id < n
    ensures |xs| == 0 ==> n == 1
    ensures |xs| > 0 ==> exists i :: 0 <= i < |xs| && xs[i].id == n - 1
  {
    if |xs| == 0 then 1 else MaxId(xs) + 1
  }

  predicate IdsBelowNext(m: Manager) {
    forall i :: 0 <= i < |m.assignments| ==> m.assignments[i].id < m.nextId
  }

  predicate UniqueIds(xs: seq<Assignment>) {
    forall i, j :: 0 <= i < j < |xs| ==> xs[i].id != xs[j].id
  }

  /** `AssignmentsManager()`: the loaded list, and a next id above all of its ids. */
  function Init(ds: seq<AssignmentRecord>): (m: Manager)
    ensures m.assignments == LoadAssignments(ds)
    ensures IdsBelowNext(m)
    ensures m.nextId == NextIdAfter(m.assignments)
  {
    var xs := LoadAssignments(ds);
    Manager(xs, NextIdAfter(xs))
  }

  // ---------------------------------------------------------------------------
  // add_assignment

  /** `add_assignment`: ValueError (and no change) exactly for a priority
      outside 1..5; otherwise one pending, unlinked assignment with the next
      id is appended and the next id moves on by one. */
  function AddAssignment(m: Manager, title: string, course: string, dueDate: Date, priority: int,
                         notes: string): (r: Result<(Manager, Assignment)>)
    ensures r.Failure? <==> !ValidPriority(priority)
    ensures r.Failure? ==> r.error == ValueError
    ensures r.Success? ==> var (m', a) := r.value;
                           && m'.assignments == m.assignments + [a] && m'.nextId == m.nextId + 1
                           && a.id == m.nextId && a.title == title && a.course == course
                           && a.dueDate == dueDate && a.priority == priority && a.notes == notes
                           && a.status == "Pending" && a.linkedIds == []
  {
    var a :- NewAssignment(m.nextId, title, course, dueDate, priority, notes, "Pending", None);
    Success((Manager(m.assignments + [a], m.nextId + 1), a))
  }

  /** Adding keeps every id below the next one, and so keeps the ids unique. */
  lemma AddAssignmentKeepsIdsUnique(m: Manager, title: string, course: string, dueDate: Date,
                                    priority: int, notes: string)
    requires IdsBelowNext(m) && UniqueIds(m.assignments)
    requires ValidPriority(priority)
    ensures var (m', _) := AddAssignment(m, title, course, dueDate, priority, notes).value;
            IdsBelowNext(m') && UniqueIds(m'.assignments)
  {
  }

  // ---------------------------------------------------------------------------
  // list_assignments

  function DueOf(a: Assignment): Date {
    a.dueDate
  }

  lemma DateBeforeIsStrictTotal()
    ensures StrictTotalOrder(DateBefore)
  {
  }

  /** `list_assignments`: the same assignments, earliest due date first,
      assignments due the same day in stored order. */
  function ListAssignments(m: Manager): (r: seq<Assignment>)
    ensures multiset(r) == multiset(m.assignments)
    ensures forall i, j :: 0 <= i < j < |r| ==> !DateBefore(r[j].dueDate, r[i].dueDate)
    ensures forall d :: KeyClass(r, DueOf, d) == KeyClass(m.assignments, DueOf, d)
  {
    DateBeforeIsStrictTotal();
    SortBy(m.assignments, DueOf, DateBefore)
  }

  // ---------------------------------------------------------------------------
  // Look-ups

  function IndexOfId(xs: seq<Assignment>, id: int): (r: Option<nat>)
    ensures r.Some? ==> r.value < |xs| && xs[r.value].id == id
                        && forall j :: 0 <= j < r.value ==> xs[j].id != id
    ensures r.None? ==> forall j :: 0 <= j < |xs| ==> xs[j].id != id
  {
    FirstIndex(xs, (a: Assignment) => a.id == id)
  }

  predicate HasId(m: Manager, id: int) {
    exists i :: 0 <= i < |m.assignments| && m.assignments[i].id == id
  }

  /** `get_assignment`: the first assignment with that id, if any. */
  function GetAssignment(m: Manager, id: int): (r: Option<Assignment>)
    ensures r.Some? <==> HasId(m, id)
    ensures r.Some? ==> r.value.id == id && r.value in m.assignments
    ensures r.Some? ==> exists k :: 0 <= k < |m.assignments| && m.assignments[k] == r.value
                                    && forall j :: 0 <= j < k ==> m.assignments[j].id != id
  {
    match IndexOfId(m.assignments, id)
    case None => None
    case Some(k) => Some(m.assignments[k])
  }

  // ---------------------------------------------------------------------------
  // complete_assignment

  /** `complete_assignment`: true and the first assignment with the id
      completed when there is one, nothing else changed; false and no change
      otherwise. */
  function CompleteAssignment(m: Manager, id: int): (r: (Manager, bool))
    ensures r.1 <==> HasId(m, id)
    ensures !r.1 ==> r.0 == m
    ensures r.1 ==> var k := IndexOfId(m.assignments, id).value;
                    r.0 == m.(assignments := m.assignments[k := Complete(m.assignments[k])])
  {
    match IndexOfId(m.assignments, id)
    case None => (m, false)
    case Some(k) => (m.(assignments := m.assignments[k := Complete(m.assignments[k])]), true)
  }

  /** After completing an existing id, looking it up shows it complete. */
  lemma CompletedIsSeenComplete(m: Manager, id: int)
    requires HasId(m, id)
    ensures var m' := CompleteAssignment(m, id).0;
            GetAssignment(m', id).Some? && GetAssignment(m', id).value.status == "Complete"
  {
    var k := IndexOfId(m.assignments, id).value;
    var m' := CompleteAssignment(m, id).0;
    assert IndexOfId(m'.assignments, id) == Some(k) by {
      assert m'.assignments[k].id == id;
    }
  }

  // ---------------------------------------------------------------------------
  // delete_assignment

  /** `linked_ids.remove(x)` when `x` is present: the first occurrence goes. */
  function RemoveFirst(xs: seq<int>, x: int): (r: seq<int>)
    ensures x !in xs ==> r == xs
    ensures x in xs ==> |r| == |xs| - 1
    ensures multiset(r) == multiset(xs) - multiset{x}
    ensures x in xs ==> exists k :: && 0 <= k < |xs| && xs[k] == x && x !in xs[..k]
                                    && r == xs[..k] + xs[k + 1..]
  {
    if |xs| == 0 then []
    else if xs[0] == x then
      assert xs == [xs[0]] + xs[1..];
      assert xs[..0] + xs[1..] == xs[1..];
      xs[1..]
    else
      assert xs == [xs[0]] + xs[1..];
      var rest := RemoveFirst(xs[1..], x);
      RemoveFirstCons(xs, x, rest);
      [xs[0]] + rest
  }

  /** Removal behind a head that is kept: what holds of the tail holds of the
      whole list. */
  lemma RemoveFirstCons(xs: seq<int>, x: int, rest: seq<int>)
    requires |xs| > 0 && xs[0] != x
    requires x !in xs[1..] ==> rest == xs[1..]
    requires multiset(rest) == multiset(xs[1..]) - multiset{x}
    requires x in xs[1..] ==> exists k :: && 0 <= k < |xs[1..]| && xs[1..][k] == x && x !in xs[1..][..k]
                                          && rest == xs[1..][..k] + xs[1..][k + 1..]
    ensures x !in xs ==> [xs[0]] + rest == xs
    ensures x in xs ==> |[xs[0]] + rest| == |xs| - 1
    ensures multiset([xs[0]] + rest) == multiset(xs) - multiset{x}
    ensures x in xs ==> exists k :: && 0 <= k < |xs| && xs[k] == x && x !in xs[..k]
                                    && [xs[0]] + rest == xs[..k] + xs[k + 1..]
  {
    assert xs == [xs[0]] + xs[1..];
    KeptHeadMultiset(xs, x, rest);
    if x in xs {
      assert x in xs[1..];
      var k :| && 0 <= k < |xs[1..]| && xs[1..][k] == x && x !in xs[1..][..k]
               && rest == xs[1..][..k] + xs[1..][k + 1..];
      SpliceAfterHead(xs, x, rest, k);
      assert |rest| == |xs[1..]| - 1;
    }
  }

  lemma KeptHeadMultiset(xs: seq<int>, x: int, rest: seq<int>)
    requires |xs| > 0 && xs[0] != x
    requires multiset(rest) == multiset(xs[1..]) - multiset{x}
    ensures multiset([xs[0]] + rest) == multiset(xs) - multiset{x}
  {
    assert xs == [xs[0]] + xs[1..];
    assert multiset(xs) == multiset{xs[0]} + multiset(xs[1..]);
    assert multiset([xs[0]] + rest) == multiset{xs[0]} + multiset(rest);
  }

  /** The first occurrence in the tail, seen from the whole list. */
  lemma SpliceAfterHead(xs: seq<int>, x: int, rest: seq<int>, k: nat)
    requires |xs| > 0 && xs[0] != x && k < |xs| - 1
    requires xs[1..][k] == x && x !in xs[1..][..k] && rest == xs[1..][..k] + xs[1..][k + 1..]
    ensures xs[k + 1] == x && x !in xs[..k + 1] && [xs[0]] + rest == xs[..k + 1] + xs[k + 2..]
  {
    assert xs[..k + 1] == [xs[0]] + xs[1..][..k];
    assert xs[k + 2..] == xs[1..][k + 1..];
  }

  /** Removing from a duplicate-free list removes the element altogether and
      leaves the list duplicate-free. */
  lemma RemoveFirstFromNoDuplicates(xs: seq<int>, x: int)
    requires NoDuplicates(xs)
    ensures x !in RemoveFirst(xs, x)
    ensures NoDuplicates(RemoveFirst(xs, x))
  {
    var r := RemoveFirst(xs, x);
    assert multiset(xs)[x] <= 1 by {
      NoDuplicatesCountsOnce(xs, x);
    }
    assert multiset(r)[x] == 0;
    forall y
      ensures multiset(r)[y] <= 1
    {
      NoDuplicatesCountsOnce(xs, y);
    }
    CountsOnceNoDuplicates(r);
  }

  lemma {:induction false} NoDuplicatesCountsOnce(xs: seq<int>, y: int)
    requires NoDuplicates(xs)
    ensures multiset(xs)[y] <= 1
  {
    if |xs| > 0 {
      assert xs == [xs[0]] + xs[1..];
      NoDuplicatesCountsOnce(xs[1..], y);
      if xs[0] == y {
        assert y !in xs[1..];
      }
    }
  }

  lemma CountsOnceNoDuplicates(xs: seq<int>)
    requires forall y :: multiset(xs)[y] <= 1
    ensures NoDuplicates(xs)
  {
    forall i, j | 0 <= i < j < |xs|
      ensures xs[i] != xs[j]
    {
      RepeatCountsTwice(xs, i, j);
    }
  }

  lemma RepeatCountsTwice(xs: seq<int>, i: nat, j: nat)
    requires i < j < |xs|
    ensures xs[i] == xs[j] ==> multiset(xs)[xs[i]] >= 2
  {
    assert xs == xs[..i] + [xs[i]] + xs[i + 1..j] + [xs[j]] + xs[j + 1..];
  }

  function WithoutId(xs: seq<Assignment>, id: int): (r: seq<Assignment>)
    ensures forall a :: a in r <==> a in xs && a.id != id
  {
    Filter(xs, (a: Assignment) => a.id != id)
  }

  function Unlink(a: Assignment, id: int): Assignment {
    a.(linkedIds := RemoveFirst(a.linkedIds, id))
  }

  /** `delete_assignment`: every assignment with the id goes, the others stay
      in order, each losing one occurrence of the id from its links and
      nothing else; the next id is untouched. */
  function DeleteAssignment(m: Manager, id: int): (r: Manager)
    ensures r.nextId == m.nextId
    ensures forall i :: 0 <= i < |r.assignments| ==> r.assignments[i].id != id
    ensures |r.assignments| == |WithoutId(m.assignments, id)|
    ensures forall i :: 0 <= i < |r.assignments|
                        ==> var kept := WithoutId(m.assignments, id)[i];
                            && r.assignments[i].(linkedIds := kept.linkedIds) == kept
                            && multiset(r.assignments[i].linkedIds) == multiset(kept.linkedIds) - multiset{id}
                            && r.assignments[i].linkedIds == RemoveFirst(kept.linkedIds, id)
  {
    var kept := WithoutId(m.assignments, id);
    assert forall i :: 0 <= i < |kept| ==> kept[i] in kept;
    Manager(seq(|kept|, i requires 0 <= i < |kept| => Unlink(kept[i], id)), m.nextId)
  }

  predicate LinksDuplicateFree(m: Manager) {
    forall i :: 0 <= i < |m.assignments| ==> NoDuplicates(m.assignments[i].linkedIds)
  }

  /** With duplicate-free links, deletion leaves no link to the deleted id and
      keeps the links duplicate-free. */
  lemma DeleteLeavesNoDanglingLink(m: Manager, id: int)
    requires LinksDuplicateFree(m)
    ensures var r := DeleteAssignment(m, id);
            LinksDuplicateFree(r)
            && forall i :: 0 <= i < |r.assignments| ==> id !in r.assignments[i].linkedIds
  {
    var r := DeleteAssignment(m, id);
    var kept := WithoutId(m.assignments, id);
    forall i | 0 <= i < |r.assignments|
      ensures NoDuplicates(r.assignments[i].linkedIds) && id !in r.assignments[i].linkedIds
    {
      assert kept[i] in kept;
      assert kept[i] in m.assignments;
      RemoveFirstFromNoDuplicates(kept[i].linkedIds, id);
    }
  }

  // ---------------------------------------------------------------------------
  // add_link

  /** `add_link(s, t)`: true exactly when both ids exist and differ; then the
      first assignment with id `s` links `t` (once) and nothing else changes;
      otherwise false and no change. */
  function AddLink(m: Manager, s: int, t: int): (r: (Manager, bool))
    ensures r.1 <==> HasId(m, s) && HasId(m, t) && s != t
    ensures !r.1 ==> r.0 == m
    ensures r.1 ==> var k := IndexOfId(m.assignments, s).value;
                    r.0 == m.(assignments := m.assignments[k := AddLinkTo(m.assignments[k], t)])
  {
    match (IndexOfId(m.assignments, s), IndexOfId(m.assignments, t))
    case (Some(k), Some(_)) =>
      if s != t then (m.(assignments := m.assignments[k := AddLinkTo(m.assignments[k], t)]), true)
      else (m, false)
    case _ => (m, false)
  }

  /** Linking the same pair twice is linking it once. */
  lemma AddLinkIdempotent(m: Manager, s: int, t: int)
    ensures var once := AddLink(m, s, t).0;
            AddLink(once, s, t).0 == once
  {
    var once := AddLink(m, s, t).0;
    if AddLink(m, s, t).1 {
      var k := IndexOfId(m.assignments, s).value;
      assert once.assignments[k].id == s;
      assert IndexOfId(once.assignments, s) == Some(k);
      assert HasId(once, t) by {
        var j := IndexOfId(m.assignments, t).value;
        assert once.assignments[j].id == t;
      }
      AddLinkToIdempotent(m.assignments[k], t);
    }
  }

  predicate NoSelfLinks(m: Manager) {
    forall i :: 0 <= i < |m.assignments| ==> m.assignments[i].id !in m.assignments[i].linkedIds
  }

  /** Linking keeps the links duplicate-free and never makes an assignment
      link to itself. */
  lemma AddLinkKeepsLinksClean(m: Manager, s: int, t: int)
    requires LinksDuplicateFree(m) && NoSelfLinks(m)
    ensures LinksDuplicateFree(AddLink(m, s, t).0) && NoSelfLinks(AddLink(m, s, t).0)
  {
    if AddLink(m, s, t).1 {
      var k := IndexOfId(m.assignments, s).value;
      AddLinkToKeepsNoDuplicates(m.assignments[k], t);
    }
  }

  // ---------------------------------------------------------------------------
  // get_linked_titles

  /** `get_linked_titles(id)`: [] for an unknown id; otherwise, in link order,
      (id, title) of each linked id that is still present. */
  function GetLinkedTitles(m: Manager, id: int): (r: seq<(int, string)>)
    ensures GetAssignment(m, id).None? ==> r == []
    ensures GetAssignment(m, id).Some? ==>
              var present := Filter(GetAssignment(m, id).value.linkedIds, (t: int) => HasId(m, t));
              && |r| == |present|
              && forall k :: 0 <= k < |r| ==> r[k].0 == present[k]
                                              && r[k].1 == GetAssignment(m, present[k]).value.title
  {
    match GetAssignment(m, id)
    case None => []
    case Some(a) =>
      var present := Filter(a.linkedIds, (t: int) => HasId(m, t));
      seq(|present|, k requires 0 <= k < |present| => (present[k], GetAssignment(m, present[k]).value.title))
  }

  /** After a deletion no listing of linked titles mentions the deleted id. */
  lemma DeletedNeverListed(m: Manager, x: int, source: int)
    ensures forall k :: 0 <= k < |GetLinkedTitles(DeleteAssignment(m, x), source)|
                        ==> GetLinkedTitles(DeleteAssignment(m, x), source)[k].0 != x
  {
    var r := DeleteAssignment(m, x);
    assert !HasId(r, x);
  }

  /** A successful link shows up in the source's linked titles. */
  lemma LinkedTargetIsListed(m: Manager, s: int, t: int)
    requires AddLink(m, s, t).1
    ensures exists k :: 0 <= k < |GetLinkedTitles(AddLink(m, s, t).0, s)|
                        && GetLinkedTitles(AddLink(m, s, t).0, s)[k].0 == t
  {
    var m' := AddLink(m, s, t).0;
    var k := IndexOfId(m.assignments, s).value;
    assert m'.assignments[k].id == s;
    assert IndexOfId(m'.assignments, s) == Some(k);
    var j := IndexOfId(m.assignments, t).value;
    assert m'.assignments[j].id == t;
    assert HasId(m', t);
    var links := m'.assignments[k].linkedIds;
    assert t in links;
    var present := Filter(links, (x: int) => HasId(m', x));
    assert t in present;
    var p :| 0 <= p < |present| && present[p] == t;
    assert GetLinkedTitles(m', s)[p].0 == t;
  }
}

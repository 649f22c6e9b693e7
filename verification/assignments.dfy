/** A student assignment with its peer links: construction with priority
    validation, completion, linking, and the equality that ignores notes.
    Due dates are held as already-valid calendar dates.
 */
module Assignments {
  import opened Wrappers

  /** A `YYYY-MM-DD` due date. */
  datatype Date = Date(year: int, month: int, day: int)

  /** `datetime` order on dates: year, then month, then day. */
  predicate DateBefore(a: Date, b: Date) {
    a.year < b.year
    || (a.year == b.year && a.month < b.month)
    || (a.year == b.year && a.month == b.month && a.day < b.day)
  }

  datatype Assignment = Assignment(
    id: int,
    title: string,
    course: string,
    dueDate: Date,
    priority: int,
    notes: string,
    status: string,
    linkedIds: seq<int>)

  predicate ValidPriority(priority: int) {
    1 <= priority <= 5
  }

  /** `Assignment(...)`: ValueError exactly when the priority is outside 1..5;
      otherwise every argument is kept, absent links becoming []. */
  function NewAssignment(id: int, title: string, course: string, dueDate: Date, priority: int,
                         notes: string, status: string, linkedIds: Option<seq<int>>): (r: Result<Assignment>)
    ensures r.Failure? <==> !ValidPriority(priority)
    ensures r.Failure? ==> r.error == ValueError
    ensures r.Success? ==> && r.value.id == id && r.value.title == title && r.value.course == course
                           && r.value.dueDate == dueDate && r.value.priority == priority
                           && r.value.notes == notes && r.value.status == status
                           && r.value.linkedIds == (if linkedIds.Some? then linkedIds.value else [])
  {
    if !ValidPriority(priority) then Failure(ValueError)
    else Success(Assignment(id, title, course, dueDate, priority, notes, status, linkedIds.GetOr([])))
  }

  /** `complete()`. */
  function Complete(a: Assignment): (r: Assignment)
    ensures r.status == "Complete"
    ensures r.(status := a.status) == a
  {
    a.(status := "Complete")
  }

  lemma CompleteIdempotent(a: Assignment)
    ensures Complete(Complete(a)) == Complete(a)
  {
  }

  predicate NoDuplicates(xs: seq<int>) {
    forall i, j :: 0 <= i < j < |xs| ==> xs[i] != xs[j]
  }

  /** `add_link(target)`: the target is appended unless already linked; the
      existing links keep their order. */
  function AddLinkTo(a: Assignment, target: int): (r: Assignment)
    ensures target in r.linkedIds
    ensures r.(linkedIds := a.linkedIds) == a
    ensures target in a.linkedIds ==> r == a
    ensures target !in a.linkedIds ==> r.linkedIds == a.linkedIds + [target]
  {
    if target in a.linkedIds then a
    else a.(linkedIds := a.linkedIds + [target])
  }

  /** Linking twice is linking once. */
  lemma AddLinkToIdempotent(a: Assignment, target: int)
    ensures AddLinkTo(AddLinkTo(a, target), target) == AddLinkTo(a, target)
  {
  }

  /** Linking keeps the links free of duplicates. */
  lemma AddLinkToKeepsNoDuplicates(a: Assignment, target: int)
    requires NoDuplicates(a.linkedIds)
    ensures NoDuplicates(AddLinkTo(a, target).linkedIds)
  {
    var r := AddLinkTo(a, target).linkedIds;
    if target !in a.linkedIds {
      forall i, j | 0 <= i < j < |r|
        ensures r[i] != r[j]
      {
        if j == |r| - 1 {
          assert r[i] in a.linkedIds;
        }
      }
    }
  }

  /** `__eq__`: all fields but the notes. */
  predicate Equal(a: Assignment, b: Assignment) {
    && a.id == b.id && a.title == b.title && a.course == b.course && a.dueDate == b.dueDate
    && a.priority == b.priority && a.status == b.status && a.linkedIds == b.linkedIds
  }

  /** Two assignments are equal exactly when they agree once their notes are
      blanked out. */
  lemma EqualIgnoresOnlyNotes(a: Assignment, b: Assignment)
    ensures Equal(a, b) <==> a.(notes := "") == b.(notes := "")
  {
    if a.(notes := "") == b.(notes := "") {
      assert a.(notes := "").id == b.(notes := "").id;
      assert a.(notes := "").linkedIds == b.(notes := "").linkedIds;
    }
  }
}

/** The school/work schedule manager: two item lists that share one id
    counter, items removed by position or by id, lookup by id, and the
    placeholder summariser. Arguments that Python leaves untyped arrive as a
    `Value`, so the type checks of the source stay visible.
 */
module Schedule {
  import opened Wrappers
  import opened Text
  import opened Seqs

  /** A Python argument whose type is checked at run time. */
  datatype Value = Str(s: string) | Int(n: int) | NoneValue | OtherValue

  datatype Item = Item(id: string, title: string, time: Option<string>, notes: Option<string>)

  datatype Kind = School | Work

  datatype Manager = Manager(school: seq<Item>, work: seq<Item>, nextId: nat)

  /** `ScheduleManager()`: both lists empty, the counter at 1. */
  function Init(): (m: Manager)
    ensures m.school == [] && m.work == [] && m.nextId == 1
    ensures Valid(m)
  {
    Manager([], [], 1)
  }

  function ListOf(m: Manager, k: Kind): seq<Item> {
    match k
    case School => m.school
    case Work => m.work
  }

  function WithList(m: Manager, k: Kind, items: seq<Item>): Manager {
    match k
    case School => m.(school := items)
    case Work => m.(work := items)
  }

  /** Every item of both schedules, school first. */
  function AllItems(m: Manager): seq<Item> {
    m.school + m.work
  }

  // ---------------------------------------------------------------------------
  // The id invariant

  predicate DistinctIds(items: seq<Item>) {
    forall i, j :: 0 <= i < j < |items| ==> items[i].id != items[j].id
  }

  /** `id` is one of the strings the counter issued before reaching `next`. */
  predicate IssuedBefore(id: string, next: nat) {
    |id| >= 1 && AllDigits(id) && 1 <= DigitsValue(id) < next
  }

  predicate AllIssuedBefore(items: seq<Item>, next: nat) {
    forall x :: x in items ==> IssuedBefore(x.id, next)
  }

  /** The state every manager reachable from `Init` keeps: each id was issued
      by the counter, and no id occurs twice, within or across the schedules. */
  predicate Valid(m: Manager) {
    && m.nextId >= 1
    && DistinctIds(m.school) && DistinctIds(m.work)
    && (forall x, y :: x in m.school && y in m.work ==> x.id != y.id)
    && AllIssuedBefore(m.school, m.nextId) && AllIssuedBefore(m.work, m.nextId)
  }

  /** In a valid manager every id is unique across both schedules. */
  lemma ValidMeansUniqueIds(m: Manager)
    requires Valid(m)
    ensures DistinctIds(AllItems(m))
  {
    var all := AllItems(m);
    forall i, j | 0 <= i < j < |all|
      ensures all[i].id != all[j].id
    {
      if j < |m.school| {
        assert all[i] == m.school[i] && all[j] == m.school[j];
      } else if i >= |m.school| {
        assert all[i] == m.work[i - |m.school|] && all[j] == m.work[j - |m.school|];
      } else {
        assert all[i] in m.school && all[j] in m.work;
      }
    }
  }

  // ---------------------------------------------------------------------------
  // _get_schedule_list

  /** `_get_schedule_list`: TypeError for a non-string; otherwise the
      lower-cased name must be "school" or "work", else ValueError. */
  function ScheduleKind(t: Value): (r: Result<Kind>)
    ensures !t.Str? ==> r == Failure(TypeError)
    ensures t.Str? ==> (r == Success(School) <==> Lower(t.s) == "school")
    ensures t.Str? ==> (r == Success(Work) <==> Lower(t.s) == "work")
    ensures t.Str? && r.Failure? ==> r.error == ValueError
  {
    if !t.Str? then Failure(TypeError)
    else if Lower(t.s) == "school" then Success(School)
    else if Lower(t.s) == "work" then Success(Work)
    else Failure(ValueError)
  }

  /** The schedule name is matched without regard to case. */
  lemma ScheduleKindIgnoresCase(a: string, b: string)
    requires Lower(a) == Lower(b)
    ensures ScheduleKind(Str(a)) == ScheduleKind(Str(b))
  {
  }

  // ---------------------------------------------------------------------------
  // _generate_id

  /** `_generate_id`: the decimal form of the counter, which moves on by one. */
  function GenerateId(m: Manager): (r: (string, Manager))
    ensures r.1 == m.(nextId := m.nextId + 1)
    ensures |r.0| >= 1 && AllDigits(r.0) && DigitsValue(r.0) == m.nextId
  {
    DigitsValueOfNatToString(m.nextId);
    (NatToString(m.nextId), m.(nextId := m.nextId + 1))
  }

  /** Two ids drawn one after the other differ. */
  lemma GeneratedIdsDiffer(m: Manager)
    ensures GenerateId(m).0 != GenerateId(GenerateId(m).1).0
  {
  }

  // ---------------------------------------------------------------------------
  // add_item

  /** `add_item`: the schedule name is checked before an id is drawn, so a
      failed add consumes no id; a successful one appends the new item to the
      end of the chosen schedule only. */
  function AddItem(m: Manager, t: Value, title: string, time: Option<string>, notes: Option<string>)
    : (r: Result<(Manager, Item)>)
    ensures r.Failure? <==> ScheduleKind(t).Failure?
    ensures r.Failure? ==> r.error == ScheduleKind(t).error
    ensures r.Success? ==>
              var (m', it) := r.value;
              var k := ScheduleKind(t).value;
              && it == Item(NatToString(m.nextId), title, time, notes)
              && m'.nextId == m.nextId + 1
              && ListOf(m', k) == ListOf(m, k) + [it]
              && (k == School ==> m'.work == m.work)
              && (k == Work ==> m'.school == m.school)
  {
    var k :- ScheduleKind(t);
    var (id, m1) := GenerateId(m);
    var it := Item(id, title, time, notes);
    Success((WithList(m1, k, ListOf(m1, k) + [it]), it))
  }

  /** No item of a valid manager carries the id the counter issues next. */
  lemma NextIdIsUnused(m: Manager)
    requires Valid(m)
    ensures forall x :: x in AllItems(m) ==> x.id != NatToString(m.nextId)
  {
    DigitsValueOfNatToString(m.nextId);
  }

  /** Appending an item with a new id keeps the ids distinct. */
  lemma DistinctAppend(xs: seq<Item>, it: Item)
    requires DistinctIds(xs)
    requires forall x :: x in xs ==> x.id != it.id
    ensures DistinctIds(xs + [it])
  {
    var ys := xs + [it];
    forall i, j | 0 <= i < j < |ys|
      ensures ys[i].id != ys[j].id
    {
      assert ys[i] == xs[i];
      if j < |xs| {
        assert ys[j] == xs[j];
      }
    }
  }

  /** Adding keeps the id invariant. */
  lemma AddItemKeepsValid(m: Manager, t: Value, title: string, time: Option<string>, notes: Option<string>)
    requires Valid(m)
    ensures var r := AddItem(m, t, title, time, notes);
            r.Success? ==> Valid(r.value.0)
  {
    var r := AddItem(m, t, title, time, notes);
    if r.Success? {
      var (m', it) := r.value;
      NextIdIsUnused(m);
      DigitsValueOfNatToString(m.nextId);
      if ScheduleKind(t).value == School {
        DistinctAppend(m.school, it);
      } else {
        DistinctAppend(m.work, it);
      }
    }
  }

  // ---------------------------------------------------------------------------
  // remove_item

  /** The list without its element at `k`. */
  function RemoveAt(items: seq<Item>, k: nat): (r: seq<Item>)
    requires k < |items|
    ensures |r| == |items| - 1
    ensures forall j :: 0 <= j < k ==> r[j] == items[j]
    ensures forall j :: k <= j < |r| ==> r[j] == items[j + 1]
    ensures forall x :: x in r ==> x in items
  {
    items[..k] + items[k + 1..]
  }

  /** The item matching an id. */
  function HasId(id: string): Item -> bool {
    (x: Item) => x.id == id
  }

  /** The position `remove_item` takes out of `xs`: an `int` within range is
      taken as it is (IndexError below 0 or from the length on); a `str` gives
      the first item with that id (ValueError when there is none); any other
      identifier raises TypeError. */
  function Position(xs: seq<Item>, identifier: Value): (r: Result<nat>)
    ensures r.Success? ==> r.value < |xs|
    ensures identifier.Int? ==> (r.Success? <==> 0 <= identifier.n < |xs|)
    ensures identifier.Int? && r.Success? ==> r.value == identifier.n
    ensures identifier.Int? && r.Failure? ==> r.error == IndexError
    ensures identifier.Str? ==> (r.Success? <==> exists x :: x in xs && x.id == identifier.s)
    ensures identifier.Str? && r.Success? ==>
              xs[r.value].id == identifier.s && forall j :: 0 <= j < r.value ==> xs[j].id != identifier.s
    ensures identifier.Str? && r.Failure? ==> r.error == ValueError
    ensures !identifier.Int? && !identifier.Str? ==> r == Failure(TypeError)
  {
    match identifier
    case Int(i) =>
      if i < 0 || i >= |xs| then Failure(IndexError) else Success(i)
    case Str(id) =>
      (match FirstIndex(xs, HasId(id))
       case None => Failure(ValueError)
       case Some(p) => Success(p))
    case _ => Failure(TypeError)
  }

  /** `remove_item`: the schedule name is checked first, then the identifier;
      a failure changes nothing, and a success takes the item at `Position`
      out of the chosen schedule and returns it, leaving the other schedule
      and the counter alone. */
  function RemoveItem(m: Manager, t: Value, identifier: Value): (r: Result<(Manager, Item)>)
    ensures ScheduleKind(t).Failure? ==> r == Failure(ScheduleKind(t).error)
    ensures ScheduleKind(t).Success? ==>
              var k := ScheduleKind(t).value;
              var pos := Position(ListOf(m, k), identifier);
              && (pos.Failure? ==> r == Failure(pos.error))
              && (pos.Success? ==>
                    && r.Success? && r.value.1 == ListOf(m, k)[pos.value]
                    && ListOf(r.value.0, k) == RemoveAt(ListOf(m, k), pos.value)
                    && r.value.0.nextId == m.nextId
                    && (k == School ==> r.value.0.work == m.work)
                    && (k == Work ==> r.value.0.school == m.school))
  {
    var k :- ScheduleKind(t);
    var xs := ListOf(m, k);
    var p :- Position(xs, identifier);
    Success((WithList(m, k, RemoveAt(xs, p)), xs[p]))
  }

  /** Removing one element keeps the ids distinct. */
  lemma DistinctRemove(items: seq<Item>, k: nat)
    requires k < |items| && DistinctIds(items)
    ensures DistinctIds(RemoveAt(items, k))
  {
    var c := RemoveAt(items, k);
    forall i, j | 0 <= i < j < |c|
      ensures c[i].id != c[j].id
    {
      var i' := if i < k then i else i + 1;
      var j' := if j < k then j else j + 1;
      assert c[i] == items[i'] && c[j] == items[j'];
    }
  }

  /** Removal keeps the id invariant. */
  lemma RemoveItemKeepsValid(m: Manager, t: Value, identifier: Value)
    requires Valid(m)
    ensures var r := RemoveItem(m, t, identifier);
            r.Success? ==> Valid(r.value.0)
  {
    var r := RemoveItem(m, t, identifier);
    if r.Success? {
      var k := ScheduleKind(t).value;
      var p := Position(ListOf(m, k), identifier).value;
      DistinctRemove(ListOf(m, k), p);
    }
  }

  /** After a removal by id, no item of that schedule has the id any more. */
  lemma RemoveByIdRemovesId(m: Manager, t: Value, id: string)
    requires Valid(m)
    requires RemoveItem(m, t, Str(id)).Success?
    ensures forall x :: x in ListOf(RemoveItem(m, t, Str(id)).value.0, ScheduleKind(t).value) ==> x.id != id
  {
    var k := ScheduleKind(t).value;
    var xs := ListOf(m, k);
    var p := Position(xs, Str(id)).value;
    var ys := RemoveAt(xs, p);
    forall x | x in ys
      ensures x.id != id
    {
      var j :| 0 <= j < |ys| && ys[j] == x;
      var j' := if j < p then j else j + 1;
      assert x == xs[j'];
    }
  }

  /** Adding an item and then removing it by the id it was given restores
      both schedules; only the counter has moved on. */
  lemma RemoveAddedItem(m: Manager, t: Value, title: string, time: Option<string>, notes: Option<string>)
    requires Valid(m)
    requires AddItem(m, t, title, time, notes).Success?
    ensures var (m1, it) := AddItem(m, t, title, time, notes).value;
            RemoveItem(m1, t, Str(it.id)) == Success((m.(nextId := m.nextId + 1), it))
  {
    var (m1, it) := AddItem(m, t, title, time, notes).value;
    var k := ScheduleKind(t).value;
    var xs := ListOf(m, k);
    assert forall x :: x in xs ==> x.id != it.id by {
      NextIdIsUnused(m);
      assert forall x :: x in xs ==> x in AllItems(m);
    }
    RemoveAppendedItem(m1, t, k, xs, it);
    assert WithList(m1, k, xs) == m.(nextId := m.nextId + 1);
  }

  /** Removing, by its id, an item appended to a schedule holding no other
      item with that id takes exactly that item back out. */
  lemma RemoveAppendedItem(m: Manager, t: Value, k: Kind, xs: seq<Item>, it: Item)
    requires ScheduleKind(t) == Success(k)
    requires ListOf(m, k) == xs + [it]
    requires forall x :: x in xs ==> x.id != it.id
    ensures RemoveItem(m, t, Str(it.id)) == Success((WithList(m, k, xs), it))
  {
    RemoveLastAppended(xs, it);
    assert (xs + [it])[|xs|] == it;
  }

  /** An item appended with a new id is the first match of that id, and
      taking it out gives the list back. */
  lemma RemoveLastAppended(xs: seq<Item>, it: Item)
    requires forall x :: x in xs ==> x.id != it.id
    ensures Position(xs + [it], Str(it.id)) == Success(|xs|)
    ensures RemoveAt(xs + [it], |xs|) == xs
  {
    var ys := xs + [it];
    assert ys[|xs|] == it;
    assert forall j :: 0 <= j < |xs| ==> ys[j] == xs[j];
  }

  // ---------------------------------------------------------------------------
  // find_item and display_schedule

  /** `find_item`: the item of the chosen schedule with that id, or None when
      no item has it; the manager is not touched. */
  function FindItem(m: Manager, t: Value, id: string): (r: Result<Option<Item>>)
    ensures r.Failure? <==> ScheduleKind(t).Failure?
    ensures r.Failure? ==> r.error == ScheduleKind(t).error
    ensures r.Success? ==>
              var xs := ListOf(m, ScheduleKind(t).value);
              && (r.value.Some? ==> r.value.value in xs && r.value.value.id == id)
              && (r.value.Some? ==> exists p :: && 0 <= p < |xs| && xs[p] == r.value.value
                                                && forall j :: 0 <= j < p ==> xs[j].id != id)
              && (r.value.None? <==> forall x :: x in xs ==> x.id != id)
  {
    var k :- ScheduleKind(t);
    var xs := ListOf(m, k);
    match FirstIndex(xs, HasId(id))
    case None => Success(None)
    case Some(p) => Success(Some(xs[p]))
  }

  /** A freshly added item is found by its id. */
  lemma FindAddedItem(m: Manager, t: Value, title: string, time: Option<string>, notes: Option<string>)
    requires Valid(m)
    requires AddItem(m, t, title, time, notes).Success?
    ensures var (m1, it) := AddItem(m, t, title, time, notes).value;
            FindItem(m1, t, it.id) == Success(Some(it))
  {
    var (m1, it) := AddItem(m, t, title, time, notes).value;
    var k := ScheduleKind(t).value;
    var xs := ListOf(m, k);
    NextIdIsUnused(m);
    assert forall x :: x in xs ==> x in AllItems(m);
    assert ListOf(m1, k)[|xs|] == it;
  }

  /** Once removed by id, the id is no longer found in that schedule. */
  lemma FindRemovedItem(m: Manager, t: Value, id: string)
    requires Valid(m)
    requires RemoveItem(m, t, Str(id)).Success?
    ensures FindItem(RemoveItem(m, t, Str(id)).value.0, t, id) == Success(None)
  {
    RemoveByIdRemovesId(m, t, id);
  }

  /** What `display_schedule` hands back: both lists, or the one asked for. */
  datatype Shown = Both(school: seq<Item>, work: seq<Item>) | One(items: seq<Item>)

  predicate AsksForBoth(t: Value) {
    t.NoneValue? || (t.Str? && Lower(t.s) == "both")
  }

  /** `display_schedule`: None or "both" (any case) give both schedules;
      anything else goes through `_get_schedule_list`. */
  function DisplaySchedule(m: Manager, t: Value): (r: Result<Shown>)
    ensures AsksForBoth(t) ==> r == Success(Both(m.school, m.work))
    ensures !AsksForBoth(t) ==> (r.Failure? <==> ScheduleKind(t).Failure?)
    ensures !AsksForBoth(t) && r.Failure? ==> r.error == ScheduleKind(t).error
    ensures !AsksForBoth(t) && r.Success? ==> r == Success(One(ListOf(m, ScheduleKind(t).value)))
  {
    if AsksForBoth(t) then Success(Both(m.school, m.work))
    else
      var k :- ScheduleKind(t);
      Success(One(ListOf(m, k)))
  }

  /** Showing both schedules shows exactly what showing each one does. */
  lemma DisplayBothIsEachSchedule(m: Manager)
    ensures DisplaySchedule(m, Str("school")) == Success(One(m.school))
    ensures DisplaySchedule(m, Str("work")) == Success(One(m.work))
    ensures DisplaySchedule(m, NoneValue) == Success(Both(m.school, m.work))
  {
    assert Lower("school") == "school";
    assert Lower("work") == "work";
  }

  // ---------------------------------------------------------------------------
  // summarize_text

  const SummaryPrefix := "Summary: '"
  const SummarySuffix := "...'"

  /** The phrase `summarize_text` quotes: the first line of the stripped
      description, itself stripped. `split` never returns an empty list, so
      the "No content found." fallback of the source cannot be taken. */
  function FirstLine(description: string): (phrase: string)
    ensures '\n' !in phrase
    ensures |phrase| > 0 ==> !IsSpace(phrase[0]) && !IsSpace(phrase[|phrase| - 1])
    ensures Strip(phrase) == phrase
  {
    var lines := SplitOn(Strip(description), '\n');
    StripKeepsAbsentChar(lines[0], '\n');
    StripOfStripped(lines[0]);
    Strip(lines[0])
  }

  /** `summarize_text`: the quoted phrase between "Summary: '" and "...'". */
  function SummarizeText(description: string): (r: string)
    ensures |r| >= 14 && r[..10] == SummaryPrefix && r[|r| - 4..] == SummarySuffix
    ensures r[10..|r| - 4] == FirstLine(description) && '\n' !in r[10..|r| - 4]
  {
    SummaryPrefix + FirstLine(description) + SummarySuffix
  }

  /** The phrase is the stripped text before the first line break of the
      stripped description. */
  lemma FirstLineIsBeforeBreak(description: string)
    ensures var s := Strip(description);
            exists n :: 0 <= n <= |s| && FirstLine(description) == Strip(s[..n])
                        && '\n' !in s[..n] && (n < |s| ==> s[n] == '\n')
  {
    var s := Strip(description);
    SplitOnFirst(s, '\n');
    var n := |SplitOn(s, '\n')[0]|;
    assert SplitOn(s, '\n')[0] == s[..n];
  }

  /** A one-line description is quoted in full, stripped. */
  lemma SummarizeOneLine(description: string)
    requires '\n' !in description
    ensures SummarizeText(description) == SummaryPrefix + Strip(description) + SummarySuffix
  {
    var s := Strip(description);
    StripKeepsAbsentChar(description, '\n');
    SplitOnFirst(s, '\n');
    var p := SplitOn(s, '\n')[0];
    assert p == s;
    StripOfStripped(description);
  }
}

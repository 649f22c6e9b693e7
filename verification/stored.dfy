/** The stored form of the records: the JSON objects of `knowledge.json` and
    `tasks.json`. Every prototype of the manager reads and writes these files
    with the same keys, so one record shape per kind serves all of them.
    A key of a stored object is either absent or present; a JSON `null` is
    read by `dict.get(key)` exactly as an absent key, so both are `Missing`.
 */
module Stored {
  import opened Wrappers

  /** One key of a stored JSON object. */
  datatype Slot<T> = Missing | Given(value: T) {

    /** `data.get(key)`: `None` when the key is absent. */
    function Get(): (r: Option<T>)
      ensures r.Some? <==> Given?
      ensures Given? ==> r.value == value
    {
      match this
      case Missing => None
      case Given(v) => Some(v)
    }

    /** `data.get(key, default)`. */
    function GetOr(default: T): (r: T)
      ensures Given? ==> r == value
      ensures Missing? ==> r == default
    {
      match this
      case Missing => default
      case Given(v) => v
    }

    /** `data[key]`: KeyError when the key is absent. */
    function Require(key: string): (r: Result<T>)
      ensures r.Success? <==> Given?
      ensures r.Success? ==> r.value == value
      ensures r.Failure? ==> r.error == KeyError(key)
    {
      match this
      case Missing => Failure(KeyError(key))
      case Given(v) => Success(v)
    }
  }

  /** How `json.dump` writes an optional field: `None` becomes `null`. */
  function Put<T>(o: Option<T>): (s: Slot<T>)
    ensures s.Get() == o
  {
    match o
    case None => Missing
    case Some(v) => Given(v)
  }

  /** A stored knowledge entry (one element of `knowledge.json`). */
  datatype KnowledgeRecord = KnowledgeRecord(
    id: Slot<string>,
    title: Slot<string>,
    content: Slot<string>,
    tags: Slot<seq<string>>,
    createdAt: Slot<string>,
    summary: Slot<string>,
    isSummarized: Slot<bool>)

  /** A stored task (one element of `tasks.json`). */
  datatype TaskRecord = TaskRecord(
    id: Slot<string>,
    title: Slot<string>,
    description: Slot<string>,
    dueDate: Slot<string>,
    status: Slot<string>,
    priority: Slot<string>,
    knowledgeLinkId: Slot<string>,
    createdAt: Slot<string>,
    isPrioritized: Slot<bool>)
}

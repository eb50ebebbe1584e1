/**
 The persistence boundary. What is read back from the storage key is
 modelled as the value `JSON.parse` produced (or the reason there is
 none); the text encoding itself is outside the model. Loading accepts
 the stored list whole or not at all.
 */
module Storage {
  import opened Wrappers
  import opened Tasks

  /** A stored task object; a field the object lacks is `None`. */
  datatype Record = Record(id: Option<Value>, text: Option<string>, completed: Option<Value>, createdAt: int)

  /** One element of the stored array: a task object, or any other JSON value. */
  datatype Element = Object(record: Record) | NonObject

  /**
   What the storage key yields: nothing (or the empty string), text that
   does not parse, a parsed value that is not an array, or an array.
   */
  datatype Stored = Absent | Unparsable | NonArray | Array(elements: seq<Element>)

  /** The per-element check: a truthy `id`, a truthy `text`, a boolean `completed`. */
  predicate Valid(e: Element) {
    && e.Object?
    && e.record.id.Some? && Truthy(e.record.id.value)
    && e.record.text.Some? && e.record.text.value != ""
    && e.record.completed.Some? && e.record.completed.value.Bool?
  }

  function Decode(e: Element): (t: Task)
    requires Valid(e)
    ensures WellFormed(t)
    ensures EncodeTask(t) == e
  {
    Task(e.record.id.value, e.record.text.value, e.record.completed.value.b, e.record.createdAt)
  }

  function EncodeTask(t: Task): Element {
    Object(Record(Some(t.id), Some(t.text), Some(Bool(t.completed)), t.createdAt))
  }

  /** The value written under the storage key for a list of tasks. */
  function Encode(ts: seq<Task>): (p: Stored)
    ensures p.Array? && |p.elements| == |ts|
  {
    Array(seq(|ts|, i requires 0 <= i < |ts| => EncodeTask(ts[i])))
  }

  /**
   The initial task list: the stored array when every element passes the
   check, and the empty list in every other case.
   */
  function Load(p: Stored): (r: seq<Task>)
    ensures AllWellFormed(r)
    ensures !p.Array? ==> r == []
    ensures p.Array? ==> r == [] || |r| == |p.elements|
    ensures p.Array? ==> (|r| == |p.elements| <==> forall i :: 0 <= i < |p.elements| ==> Valid(p.elements[i]))
    ensures p.Array? && (exists i :: 0 <= i < |p.elements| && !Valid(p.elements[i])) ==> r == []
    ensures p.Array? && |r| == |p.elements| ==>
      forall i :: 0 <= i < |r| ==> Valid(p.elements[i]) && r[i] == Decode(p.elements[i])
  {
    match p
    case Array(es) =>
      if forall i :: 0 <= i < |es| ==> Valid(es[i])
      then seq(|es|, i requires 0 <= i < |es| => Decode(es[i]))
      else []
    case _ => []
  }

  /**
   Round trip: loading what was saved for a list gives the list back when
   every task is well-formed, and the empty list otherwise.
   */
  lemma LoadEncode(ts: seq<Task>)
    ensures Load(Encode(ts)) == (if AllWellFormed(ts) then ts else [])
  {
    var es := Encode(ts).elements;
    assert forall i :: 0 <= i < |ts| ==> (Valid(es[i]) <==> WellFormed(ts[i]));
    if AllWellFormed(ts) {
      assert forall i :: 0 <= i < |ts| ==> Decode(es[i]) == ts[i];
    } else {
      var k :| 0 <= k < |ts| && !WellFormed(ts[k]);
      assert !Valid(es[k]);
    }
  }

  /** Saving a freshly loaded list and loading it again gives the same list. */
  lemma ReloadStable(p: Stored)
    ensures Load(Encode(Load(p))) == Load(p)
  {
    LoadEncode(Load(p));
  }
}

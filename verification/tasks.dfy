/**
 The task record and the four list mutations of the to-do list:
 adding a task from the input box, deleting a task, toggling its
 completion, and clearing every completed task. Each is a pure function
 from the old list to the new one.
 */
module Tasks {
  import opened Wrappers
  import opened Seqs
  import Text

  /** The JSON scalars a task id can be; equality is strict (`===`) equality. */
  datatype Value = Null | Bool(b: bool) | Num(n: int) | Str(s: string)

  /** JavaScript truthiness of a JSON scalar. */
  predicate Truthy(v: Value) {
    match v
    case Null => false
    case Bool(b) => b
    case Num(n) => n != 0
    case Str(s) => s != ""
  }

  type Id = Value

  /** `createdAt` is the creation instant in milliseconds since the epoch. */
  datatype Task = Task(id: Id, text: string, completed: bool, createdAt: int)

  /** The shape the load validator accepts: a truthy id and a non-empty text. */
  predicate WellFormed(t: Task) {
    Truthy(t.id) && t.text != ""
  }

  predicate AllWellFormed(ts: seq<Task>) {
    All(WellFormed, ts)
  }

  function HasId(id: Id): Task -> bool {
    (t: Task) => t.id == id
  }

  function LacksId(id: Id): Task -> bool {
    (t: Task) => t.id != id
  }

  function IsCompleted(t: Task): bool {
    t.completed
  }

  function IsActive(t: Task): bool {
    !t.completed
  }

  /** Why an add was refused. */
  datatype AddError = EmptyTask

  /**
   Adds the trimmed input as a new uncompleted task at the end of the list.
   The caller supplies the id and the creation time (the clock is outside
   the model). Input that is empty or only whitespace is refused.
   */
  function Add(ts: seq<Task>, input: string, id: Id, createdAt: int): (r: Result<seq<Task>, AddError>)
    ensures r.Failure? <==> Text.Blank(input)
    ensures r.Success? ==>
      && |r.value| == |ts| + 1
      && r.value[..|ts|] == ts
      && r.value[|ts|].id == id
      && r.value[|ts|].createdAt == createdAt
      && !r.value[|ts|].completed
      && r.value[|ts|].text == Text.Trim(input)
      && r.value[|ts|].text != ""
  {
    var text := Text.Trim(input);
    if text == "" then Failure(EmptyTask)
    else Success(ts + [Task(id, text, false, createdAt)])
  }

  /** Deletes every task carrying `id`. */
  function Remove(ts: seq<Task>, id: Id): (r: seq<Task>)
    ensures IsSubseq(r, ts)
    ensures forall i :: 0 <= i < |r| ==> r[i].id != id
    ensures |r| + |Filter(HasId(id), ts)| == |ts|
  {
    FilterPartition(HasId(id), LacksId(id), ts);
    Filter(LacksId(id), ts)
  }

  function Flip(t: Task, id: Id): Task {
    if t.id == id then t.(completed := !t.completed) else t
  }

  /** Flips `completed` on every task carrying `id`. */
  function Toggle(ts: seq<Task>, id: Id): (r: seq<Task>)
    ensures |r| == |ts|
    ensures forall i :: 0 <= i < |ts| ==>
      r[i].id == ts[i].id && r[i].text == ts[i].text && r[i].createdAt == ts[i].createdAt
    ensures forall i :: 0 <= i < |ts| ==> (r[i].completed != ts[i].completed <==> ts[i].id == id)
  {
    seq(|ts|, i requires 0 <= i < |ts| => Flip(ts[i], id))
  }

  /** Deletes every completed task. */
  function ClearCompleted(ts: seq<Task>): (r: seq<Task>)
    ensures IsSubseq(r, ts)
    ensures forall i :: 0 <= i < |r| ==> !r[i].completed
    ensures |r| + |Filter(IsCompleted, ts)| == |ts|
  {
    FilterPartition(IsCompleted, IsActive, ts);
    Filter(IsActive, ts)
  }

  /**
   Removal is characterised independently of how it is computed: any
   order-preserving subsequence that lacks `id` and drops only as many
   tasks as carry `id` is the result of `Remove`.
   */
  lemma RemoveUnique(ts: seq<Task>, id: Id, r: seq<Task>)
    requires IsSubseq(r, ts)
    requires forall i :: 0 <= i < |r| ==> r[i].id != id
    requires |r| + |Filter(HasId(id), ts)| == |ts|
    ensures r == Remove(ts, id)
  {
    FilterPartition(HasId(id), LacksId(id), ts);
    FilterUnique(LacksId(id), r, ts);
  }

  /** Removing an id no task carries leaves the list as it is. */
  lemma RemoveAbsent(ts: seq<Task>, id: Id)
    requires forall i :: 0 <= i < |ts| ==> ts[i].id != id
    ensures Remove(ts, id) == ts
  {
    FilterKeepsAll(LacksId(id), ts);
  }

  /** A second removal of the same id changes nothing. */
  lemma RemoveIdempotent(ts: seq<Task>, id: Id)
    ensures Remove(Remove(ts, id), id) == Remove(ts, id)
  {
    RemoveAbsent(Remove(ts, id), id);
  }

  /** Toggling the same id twice restores the list. */
  lemma ToggleInvolution(ts: seq<Task>, id: Id)
    ensures Toggle(Toggle(ts, id), id) == ts
  {
    var r := Toggle(Toggle(ts, id), id);
    assert forall i :: 0 <= i < |ts| ==> r[i] == ts[i];
  }

  /** Toggling an id no task carries leaves the list as it is. */
  lemma ToggleAbsent(ts: seq<Task>, id: Id)
    requires forall i :: 0 <= i < |ts| ==> ts[i].id != id
    ensures Toggle(ts, id) == ts
  {
    var r := Toggle(ts, id);
    assert forall i :: 0 <= i < |ts| ==> r[i] == ts[i];
  }

  /** Clearing is characterised as keeping exactly the uncompleted tasks in order. */
  lemma ClearCompletedUnique(ts: seq<Task>, r: seq<Task>)
    requires IsSubseq(r, ts)
    requires forall i :: 0 <= i < |r| ==> !r[i].completed
    requires |r| + |Filter(IsCompleted, ts)| == |ts|
    ensures r == ClearCompleted(ts)
  {
    FilterPartition(IsCompleted, IsActive, ts);
    FilterUnique(IsActive, r, ts);
  }

  /** Clearing twice is clearing once. */
  lemma ClearCompletedIdempotent(ts: seq<Task>)
    ensures ClearCompleted(ClearCompleted(ts)) == ClearCompleted(ts)
  {
    FilterIdempotent(IsActive, ts);
  }

  /** A non-blank input is appended as one new task. */
  lemma AddAppends(ts: seq<Task>, input: string, id: Id, createdAt: int)
    requires !Text.Blank(input)
    ensures Add(ts, input, id, createdAt) == Success(ts + [Task(id, Text.Trim(input), false, createdAt)])
  {
  }

  /** Adding a task under a fresh id and then removing that id undoes the add. */
  lemma AddThenRemove(ts: seq<Task>, input: string, id: Id, createdAt: int)
    requires forall i :: 0 <= i < |ts| ==> ts[i].id != id
    requires !Text.Blank(input)
    ensures Remove(Add(ts, input, id, createdAt).value, id) == ts
  {
    var task := Task(id, Text.Trim(input), false, createdAt);
    AddAppends(ts, input, id, createdAt);
    FilterConcat(LacksId(id), ts, [task]);
    FilterKeepsAll(LacksId(id), ts);
    assert [task][1..] == [];
    assert Filter(LacksId(id), [task]) == [];
  }
}

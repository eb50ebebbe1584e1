/**
 The list as a running component: the in-memory tasks, the value under
 the storage key, and the storage-error flag. Every change of the task
 list is followed by a write of the whole list; whether that write
 succeeds is outside the model and is given as a parameter.
 */
module Session {
  import opened Wrappers
  import Seqs
  import opened Tasks
  import opened Storage

  datatype State = State(tasks: seq<Task>, stored: Stored, storageError: bool)

  /** The user actions that change the list. */
  datatype Action =
    | AddTask(input: string, id: Id, createdAt: int)
    | RemoveTask(id: Id)
    | ToggleTask(id: Id)
    | ClearCompletedTasks

  /** The new list an action produces, or the reason it produced none. */
  function Apply(ts: seq<Task>, a: Action): Result<seq<Task>, AddError> {
    match a
    case AddTask(input, id, createdAt) => Add(ts, input, id, createdAt)
    case RemoveTask(id) => Success(Remove(ts, id))
    case ToggleTask(id) => Success(Toggle(ts, id))
    case ClearCompletedTasks => Success(ClearCompleted(ts))
  }

  /**
   The save effect after the list becomes `ts`: a successful write
   replaces the stored value and clears the flag, a failed one leaves the
   stored value as it was and sets the flag.
   */
  function Save(s: State, ts: seq<Task>, writeOk: bool): (r: State)
    ensures r.tasks == ts
    ensures r.storageError <==> !writeOk
    ensures writeOk ==> Load(r.stored) == (if AllWellFormed(ts) then ts else [])
    ensures !writeOk ==> r.stored == s.stored
  {
    LoadEncode(ts);
    if writeOk then State(ts, Encode(ts), false) else State(ts, s.stored, true)
  }

  /** Mounting: the list is loaded from the stored value, then saved once. */
  function Start(p: Stored, writeOk: bool): (s: State)
    ensures s.tasks == Load(p)
    ensures s.storageError <==> !writeOk
    ensures AllWellFormed(s.tasks)
    ensures writeOk ==> Load(s.stored) == Load(p)
    ensures !writeOk ==> s.stored == p
  {
    Save(State([], p, false), Load(p), writeOk)
  }

  /**
   One user action. A refused add changes nothing and writes nothing;
   every other action replaces the list and triggers a save.
   */
  function Step(s: State, a: Action, writeOk: bool): (r: State)
    ensures Apply(s.tasks, a).Failure? ==> r == s
    ensures Apply(s.tasks, a).Success? ==>
      r.tasks == Apply(s.tasks, a).value && (r.storageError <==> !writeOk)
  {
    match Apply(s.tasks, a)
    case Failure(_) => s
    case Success(ts) => Save(s, ts, writeOk)
  }

  /**
   Every task is well-formed, and while the flag is clear the stored
   value loads back as exactly the in-memory list.
   */
  ghost predicate InSync(s: State) {
    && AllWellFormed(s.tasks)
    && (!s.storageError ==> Load(s.stored) == s.tasks)
  }

  lemma StartInSync(p: Stored, writeOk: bool)
    ensures InSync(Start(p, writeOk))
  {
  }

  /** No action introduces a malformed task, given that new ids are truthy. */
  lemma ApplyWellFormed(ts: seq<Task>, a: Action)
    requires AllWellFormed(ts)
    requires a.AddTask? ==> Truthy(a.id)
    ensures Apply(ts, a).Success? ==> AllWellFormed(Apply(ts, a).value)
  {
    match a
    case AddTask(input, id, createdAt) =>
      if Apply(ts, a).Success? {
        var r := Apply(ts, a).value;
        forall i | 0 <= i < |r| ensures WellFormed(r[i]) {
          if i < |ts| {
            assert r[i] == r[..|ts|][i];
          }
        }
      }
    case RemoveTask(id) =>
      Seqs.SubseqAll(WellFormed, Remove(ts, id), ts);
    case ToggleTask(id) =>
    case ClearCompletedTasks =>
      Seqs.SubseqAll(WellFormed, ClearCompleted(ts), ts);
  }

  /** Actions keep memory and storage in sync, given that new ids are truthy (as `Date.now()` is). */
  lemma StepInSync(s: State, a: Action, writeOk: bool)
    requires InSync(s)
    requires a.AddTask? ==> Truthy(a.id)
    ensures InSync(Step(s, a, writeOk))
  {
    ApplyWellFormed(s.tasks, a);
  }
}

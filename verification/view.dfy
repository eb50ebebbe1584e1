/**
 The derived view the list renders: the tasks selected by the filter
 mode, stably sorted by the sort mode, together with the remaining and
 completed counts, which are always taken over the whole list.
 */
module TaskView {
  import opened Seqs
  import opened Sorting
  import opened Tasks
  import Text

  /** Whether filter mode `mode` shows a task; unrecognised modes show everything. */
  function Keep(mode: string): Task -> bool {
    (t: Task) => if mode == "completed" then t.completed else if mode == "active" then !t.completed else true
  }

  /** The tasks shown under filter mode `mode`, in list order. */
  function FilterTasks(ts: seq<Task>, mode: string): (r: seq<Task>)
    ensures IsSubseq(r, ts)
    ensures mode == "completed" ==>
      && (forall i :: 0 <= i < |r| ==> r[i].completed)
      && (forall i :: 0 <= i < |ts| && ts[i].completed ==> ts[i] in r)
      && |r| == |Filter(IsCompleted, ts)|
    ensures mode == "active" ==>
      && (forall i :: 0 <= i < |r| ==> !r[i].completed)
      && (forall i :: 0 <= i < |ts| && !ts[i].completed ==> ts[i] in r)
      && |r| == |Filter(IsActive, ts)|
    ensures mode != "completed" && mode != "active" ==> r == ts
  {
    FilterExtensional(Keep("completed"), IsCompleted, ts);
    ActiveAgrees(ts);
    FilterExtensional(IsActive, Keep("active"), ts);
    FilterKeepsAll(Keep(mode), ts);
    FilterMembers(Keep(mode), ts);
    Filter(Keep(mode), ts)
  }

  /**
   The sort comparator for sort mode `order`: by creation time or by text,
   ascending or descending; every other mode ties all tasks.
   */
  function SortCompare(order: string, a: Task, b: Task): int {
    if order == "date-asc" then a.createdAt - b.createdAt
    else if order == "date-desc" then b.createdAt - a.createdAt
    else if order == "name-asc" then Text.Compare(a.text, b.text)
    else if order == "name-desc" then Text.Compare(b.text, a.text)
    else 0
  }

  function Comparator(order: string): (Task, Task) -> int {
    (a: Task, b: Task) => SortCompare(order, a, b)
  }

  /** The sort modes that reorder; any other mode leaves the order alone. */
  predicate Reorders(order: string) {
    order in {"date-asc", "date-desc", "name-asc", "name-desc"}
  }

  lemma ActiveAgrees(ts: seq<Task>)
    ensures forall i :: 0 <= i < |ts| ==> IsActive(ts[i]) == Keep("active")(ts[i])
    ensures forall i :: 0 <= i < |ts| ==> Keep("active")(ts[i]) == !Keep("completed")(ts[i])
  {
    assert "active"[0] != "completed"[0];
  }

  /** The shown tasks in display order, with the counts for the filter labels. */
  datatype View = View(items: seq<Task>, remaining: nat, completed: nat)

  function GetView(ts: seq<Task>, filter: string, order: string): (v: View)
    ensures multiset(v.items) == multiset(FilterTasks(ts, filter))
    ensures v.remaining + v.completed == |ts|
    ensures v.remaining == |FilterTasks(ts, "active")|
    ensures v.completed == |FilterTasks(ts, "completed")|
  {
    var remaining := |Filter(IsActive, ts)|;
    ActiveAgrees(ts);
    FilterExtensional(IsActive, Keep("active"), ts);
    FilterPartition(Keep("completed"), Keep("active"), ts);
    View(SortBy(Comparator(order), FilterTasks(ts, filter)), remaining, |ts| - remaining)
  }

  /** Every sort mode yields a comparator the ECMAScript sort can rely on. */
  lemma ComparatorConsistent(order: string)
    ensures Consistent(Comparator(order))
  {
    var cmp := Comparator(order);
    forall a: Task, b: Task ensures cmp(a, b) < 0 <==> cmp(b, a) > 0 {
      Text.CompareAntisymmetric(a.text, b.text);
    }
    forall a: Task, b: Task, c: Task | cmp(a, b) <= 0 && cmp(b, c) <= 0 ensures cmp(a, c) <= 0 {
      if order == "name-asc" {
        Text.CompareTransitive(a.text, b.text, c.text);
      } else if order == "name-desc" {
        Text.CompareTransitive(c.text, b.text, a.text);
      }
    }
  }

  lemma ViewSorted(ts: seq<Task>, filter: string, order: string)
    ensures var items := GetView(ts, filter, order).items;
      forall i, j :: 0 <= i < j < |items| ==> SortCompare(order, items[i], items[j]) <= 0
  {
    var items := GetView(ts, filter, order).items;
    ComparatorConsistent(order);
    SortBySorted(Comparator(order), FilterTasks(ts, filter));
    assert Sorted(Comparator(order), items);
    forall i, j | 0 <= i < j < |items| ensures SortCompare(order, items[i], items[j]) <= 0 {
      assert Comparator(order)(items[i], items[j]) <= 0;
    }
  }

  /** Oldest first: creation times never decrease along the view. */
  lemma DateAscending(ts: seq<Task>, filter: string)
    ensures var items := GetView(ts, filter, "date-asc").items;
      forall i, j :: 0 <= i < j < |items| ==> items[i].createdAt <= items[j].createdAt
  {
    ViewSorted(ts, filter, "date-asc");
  }

  /** Newest first: creation times never increase along the view. */
  lemma DateDescending(ts: seq<Task>, filter: string)
    ensures var items := GetView(ts, filter, "date-desc").items;
      forall i, j :: 0 <= i < j < |items| ==> items[i].createdAt >= items[j].createdAt
  {
    ViewSorted(ts, filter, "date-desc");
  }

  /** Name A-Z: texts never decrease along the view. */
  lemma NameAscending(ts: seq<Task>, filter: string)
    ensures var items := GetView(ts, filter, "name-asc").items;
      forall i, j :: 0 <= i < j < |items| ==> Text.Compare(items[i].text, items[j].text) <= 0
  {
    ViewSorted(ts, filter, "name-asc");
  }

  /** Name Z-A: texts never increase along the view. */
  lemma NameDescending(ts: seq<Task>, filter: string)
    ensures var items := GetView(ts, filter, "name-desc").items;
      forall i, j :: 0 <= i < j < |items| ==> Text.Compare(items[i].text, items[j].text) >= 0
  {
    var items := GetView(ts, filter, "name-desc").items;
    ViewSorted(ts, filter, "name-desc");
    forall i, j | 0 <= i < j < |items| ensures Text.Compare(items[i].text, items[j].text) >= 0 {
      assert SortCompare("name-desc", items[i], items[j]) <= 0;
      assert Text.Compare(items[j].text, items[i].text) <= 0;
      Text.CompareAntisymmetric(items[i].text, items[j].text);
    }
  }

  /** The default mode, and any mode the list does not know, keep the filtered order. */
  lemma UnsortedKeepsOrder(ts: seq<Task>, filter: string, order: string)
    requires !Reorders(order)
    ensures GetView(ts, filter, order).items == FilterTasks(ts, filter)
  {
    SortByAllTied(Comparator(order), FilterTasks(ts, filter));
  }

  /** Tasks the sort mode ties (for instance, equal creation times) stay in list order. */
  lemma ViewStable(ts: seq<Task>, filter: string, order: string, x: Task)
    ensures var tied := (t: Task) => SortCompare(order, t, x) == 0;
      Filter(tied, GetView(ts, filter, order).items) == Filter(tied, FilterTasks(ts, filter))
  {
    var tied := (t: Task) => SortCompare(order, t, x) == 0;
    var cmp := Comparator(order);
    ComparatorConsistent(order);
    forall a, b | tied(a) && tied(b) ensures cmp(a, b) == 0 {
      assert cmp(a, x) <= 0 && cmp(x, b) <= 0;
      assert cmp(b, x) <= 0 && cmp(x, a) <= 0;
    }
    SortByStable(cmp, tied, FilterTasks(ts, filter));
  }

  /** The "active" view is what clearing completed tasks keeps. */
  lemma ActiveIsClearCompleted(ts: seq<Task>)
    ensures FilterTasks(ts, "active") == ClearCompleted(ts)
  {
    ActiveAgrees(ts);
    FilterExtensional(Keep("active"), IsActive, ts);
  }

  /**
   The `completed` view is the only order-preserving selection of
   completed tasks that has as many tasks as the list has completed ones,
   so a task recorded twice is shown twice.
   */
  lemma CompletedViewUnique(ts: seq<Task>, r: seq<Task>)
    requires IsSubseq(r, ts)
    requires forall i :: 0 <= i < |r| ==> r[i].completed
    requires |r| == |Filter(IsCompleted, ts)|
    ensures r == FilterTasks(ts, "completed")
  {
    var v := FilterTasks(ts, "completed");
    assert All(IsCompleted, r);
    assert All(IsCompleted, v);
    FilterUnique(IsCompleted, r, ts);
    FilterUnique(IsCompleted, v, ts);
  }

  /** Likewise, the `active` view is the only such selection of uncompleted tasks. */
  lemma ActiveViewUnique(ts: seq<Task>, r: seq<Task>)
    requires IsSubseq(r, ts)
    requires forall i :: 0 <= i < |r| ==> !r[i].completed
    requires |r| == |Filter(IsActive, ts)|
    ensures r == FilterTasks(ts, "active")
  {
    var v := FilterTasks(ts, "active");
    assert All(IsActive, r);
    assert All(IsActive, v);
    FilterUnique(IsActive, r, ts);
    FilterUnique(IsActive, v, ts);
  }
}

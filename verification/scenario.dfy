/**
 A worked session: two tasks are added, the first is completed, and the
 views and counts are read back.
 */
module Scenario {
  import opened Wrappers
  import Seqs
  import Sorting
  import opened Tasks
  import opened TaskView
  import Text

  lemma TrimMilk()
    ensures Text.Trim("Buy milk") == "Buy milk"
  {
    var milk := "Buy milk";
    assert !Text.IsWhitespace(milk[0]);
    assert !Text.IsWhitespace(milk[|milk| - 1]);
  }

  lemma TrimStartDog()
    ensures Text.TrimStart(" Walk dog ") == "Walk dog "
  {
    var dog := " Walk dog ";
    var d1 := "Walk dog ";
    assert dog[1..] == d1;
    assert Text.IsWhitespace(dog[0]) && !Text.IsWhitespace(d1[0]);
    assert Text.TrimStart(d1) == d1;
  }

  lemma TrimEndDog()
    ensures Text.TrimEnd("Walk dog ") == "Walk dog"
  {
    var d1 := "Walk dog ";
    var d2 := "Walk dog";
    assert d1[..|d1| - 1] == d2;
    assert Text.IsWhitespace(d1[|d1| - 1]) && !Text.IsWhitespace(d2[|d2| - 1]);
    assert Text.TrimEnd(d2) == d2;
  }

  /** Surrounding spaces go; the inner one stays. */
  lemma TrimDog()
    ensures Text.Trim(" Walk dog ") == "Walk dog"
  {
    TrimStartDog();
    TrimEndDog();
  }

  lemma AddMilk()
    ensures Add([], "Buy milk", Num(1), 10) == Success([Task(Num(1), "Buy milk", false, 10)])
  {
    var milk := "Buy milk";
    TrimMilk();
    assert !Text.Blank(milk) by {
      assert !Text.IsWhitespace(milk[0]);
    }
    AddAppends([], milk, Num(1), 10);
  }

  lemma DogNotBlank()
    ensures !Text.Blank(" Walk dog ")
  {
    assert !Text.IsWhitespace(" Walk dog "[1]);
  }

  lemma AddDog()
    ensures Add([Task(Num(1), "Buy milk", false, 10)], " Walk dog ", Num(2), 20)
         == Success([Task(Num(1), "Buy milk", false, 10)] + [Task(Num(2), "Walk dog", false, 20)])
  {
    var a := Task(Num(1), "Buy milk", false, 10);
    DogNotBlank();
    AddAppends([a], " Walk dog ", Num(2), 20);
    TrimDog();
  }

  lemma BuyMilkWalkDog()
    ensures var ts := Toggle([Task(Num(1), "Buy milk", false, 10), Task(Num(2), "Walk dog", false, 20)], Num(1));
      && GetView(ts, "active", "default").items == [Task(Num(2), "Walk dog", false, 20)]
      && GetView(ts, "completed", "default").items == [Task(Num(1), "Buy milk", true, 10)]
      && GetView(ts, "all", "default").remaining == 1
      && GetView(ts, "all", "default").completed == 1
  {
    var a := Task(Num(1), "Buy milk", false, 10);
    var b := Task(Num(2), "Walk dog", false, 20);
    var ts := Toggle([a, b], Num(1));
    var a' := a.(completed := true);
    assert ts == [a', b];
    assert ts[1..] == [b];
    assert [b][1..] == [];
    assert Seqs.Filter(Keep("active"), [b]) == [b];
    assert FilterTasks(ts, "active") == [b];
    assert Seqs.Filter(Keep("completed"), [b]) == [];
    assert FilterTasks(ts, "completed") == [a'];
    UnsortedKeepsOrder(ts, "active", "default");
    UnsortedKeepsOrder(ts, "completed", "default");
  }

  /** Name Z-A puts "Banana" before "Apple" whichever was created first. */
  lemma NameDescExample()
    ensures var banana := Task(Num(1), "Banana", false, 10);
      var apple := Task(Num(2), "Apple", false, 20);
      && GetView([banana, apple], "all", "name-desc").items == [banana, apple]
      && GetView([apple, banana], "all", "name-desc").items == [banana, apple]
  {
    var banana := Task(Num(1), "Banana", false, 10);
    var apple := Task(Num(2), "Apple", false, 20);
    assert Text.Compare("Apple", "Banana") == -1;
    assert Text.Compare("Banana", "Apple") == 1;
    assert FilterTasks([banana, apple], "all") == [banana, apple];
    assert FilterTasks([apple, banana], "all") == [apple, banana];
    var cmp := Comparator("name-desc");
    assert cmp(banana, apple) < 0 && cmp(apple, banana) > 0;
    assert [banana, apple][1..] == [apple];
    assert [apple, banana][1..] == [banana];
    assert Sorting.SortBy(cmp, [apple]) == [apple];
    assert Sorting.SortBy(cmp, [banana]) == [banana];
    assert Sorting.Insert(cmp, banana, [apple]) == [banana, apple];
    assert Sorting.Insert(cmp, apple, [banana]) == [banana] + Sorting.Insert(cmp, apple, []);
  }
}

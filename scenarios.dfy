/** Client code for the store: the tested usage scenarios, proved from the
    contracts of `Tasks` and `TaskStore` alone. */
module Scenarios {
  import opened Wrappers
  import opened Tasks
  import opened TaskStoreService

  /** N adds on a fresh store assign the ids 1..N in call order, store the
      tasks in that order and leave the count at N. */
  method AddSequence(batch: seq<Task>) returns (stored: seq<Task>, count: nat)
    ensures |stored| == |batch| && count == |batch|
    ensures forall k :: 0 <= k < |batch| ==> stored[k] == batch[k].(id := k + 1)
  {
    var store := new TaskStore();
    var i := 0;
    while i < |batch|
      invariant 0 <= i <= |batch|
      invariant store.Valid() && store.nextId == i + 1 && |store.tasks| == i
      invariant forall k :: 0 <= k < i ==> store.tasks[k] == batch[k].(id := k + 1)
    {
      var added := store.Add(batch[i]);
      i := i + 1;
    }
    stored := store.GetAll();
    count := store.Count();
  }

  /** A title with no surrounding whitespace and a valid length is kept as
      is, with an empty description, status Pending and id 0. */
  lemma CreateKeepsCleanTitle(title: string, now: int)
    requires TitleValid(title) && Trimmed(title)
    ensures Create(title, now) == Ok(Task(title, "", Pending, 0, now, now))
  {
    assert [] + title + [] == title;
    TrimOfPadded([], title, []);
  }

  /** The task `Task(title=...)` builds from a clean, valid title. */
  method NewPending(title: string, now: int) returns (t: Task)
    requires TitleValid(title) && Trimmed(title)
    ensures t == Task(title, "", Pending, 0, now, now)
  {
    CreateKeepsCleanTitle(title, now);
    t := Create(title, now).value;
  }

  /** A title of n copies of a non-whitespace character is refused as empty
      at 0 (the empty title), accepted from 1 to 1000 characters and refused as too long from
      1001 on. */
  lemma TitleLengthLimit(c: char, n: nat, now: int)
    requires !IsSpace(c)
    ensures var r := Create(seq(n, _ => c), now);
            && (n == 0 ==> r == Err(EmptyTitle))
            && (1 <= n <= MaxTitleLength ==> r.Ok? && |r.value.title| == n)
            && (n > MaxTitleLength ==> r == Err(TitleTooLong))
  {
    var t := seq(n, _ => c);
    if n > 0 {
      assert Trimmed(t) by {
        assert t[0] == c && t[|t| - 1] == c;
      }
      assert [] + t + [] == t;
      TrimOfPadded([], t, []);
    }
  }

  /** A title of spaces only is refused as empty. */
  lemma BlankTitleRejected(n: nat, now: int)
    ensures Create(seq(n, _ => ' '), now) == Err(EmptyTitle)
  {
    var spaces := seq(n, _ => ' ');
    assert AllSpace(spaces) by {
      forall i | 0 <= i < |spaces| ensures IsSpace(spaces[i]) {
        assert spaces[i] == ' ';
      }
    }
  }

  /** Add two tasks (for instance "Buy milk" and "Call dentist"), complete
      the first, list, delete the second, count. */
  method EndToEnd(title1: string, title2: string, now: int)
    returns (listed: seq<Task>, deleted: bool, count: nat)
    requires TitleValid(title1) && Trimmed(title1)
    requires TitleValid(title2) && Trimmed(title2)
    ensures |listed| == 2
    ensures listed[0].id == 1 && listed[0].title == title1 && listed[0].status == Completed
    ensures listed[1].id == 2 && listed[1].title == title2 && listed[1].status == Pending
    ensures deleted && count == 1
  {
    var t1 := NewPending(title1, now);
    var t2 := NewPending(title2, now);
    var store := new TaskStore();
    var first := store.Add(t1);
    var second := store.Add(t2);
    ghost var before := store.tasks;
    assert before == [first, second];
    assert IsFirstMatch(before, 1, 0);
    var completed := store.Update(1, None, None, Some(Completed), now);
    listed := store.GetAll();
    assert IsFirstMatch(store.tasks, 2, 1);
    deleted := store.Delete(2);
    count := store.Count();
  }

  /** `update` assigns the title without validating it, so an empty title
      can end up stored. */
  method UpdateStoresUnvalidatedTitle(title: string, now: int) returns (stored: Option<Task>)
    requires TitleValid(title) && Trimmed(title)
    ensures stored.Some? && stored.value.title == "" && !TitleValid(stored.value.title)
  {
    var t := NewPending(title, now);
    var store := new TaskStore();
    var added := store.Add(t);
    assert IsFirstMatch(store.tasks, 1, 0);
    var updated := store.Update(1, Some(""), None, None, now);
    assert |store.tasks| == 1 && store.tasks[0].title == "";
    stored := store.Get(1);
    assert IsFirstMatch(store.tasks, 1, 0);
  }

  /** `add` stores whatever task it is given, valid title or not. */
  method AddStoresUnvalidatedTask(now: int) returns (stored: Option<Task>)
    ensures stored.Some? && stored.value.title == "" && stored.value.id == 1
  {
    var store := new TaskStore();
    var added := store.Add(Task("", "", Pending, 0, now, now));
    stored := store.Get(1);
    assert IsFirstMatch(store.tasks, 1, 0);
  }

  /** After `clear` the next `add` receives id 1 again. */
  method ClearRestartsIds(t: Task) returns (before: int, after: int, count: nat)
    ensures before == 2 && after == 1 && count == 1
  {
    var store := new TaskStore();
    var a := store.Add(t);
    var b := store.Add(t);
    before := b.id;
    store.Clear();
    var c := store.Add(t);
    after := c.id;
    count := store.Count();
  }

  /** Deleting an id makes it unreachable, keeps the other task retrievable
      unchanged and lowers the count by one. */
  method DeleteKeepsOthers(t1: Task, t2: Task) returns (gone: Option<Task>, kept: Option<Task>, count: nat)
    ensures gone == None && kept == Some(t2.(id := 2)) && count == 1
  {
    var store := new TaskStore();
    var a := store.Add(t1);
    var b := store.Add(t2);
    assert IsFirstMatch(store.tasks, 1, 0);
    var deleted := store.Delete(1);
    assert store.tasks == [b];
    gone := store.Get(1);
    kept := store.Get(2);
    assert IsFirstMatch(store.tasks, 2, 0);
    count := store.Count();
  }

  /** A store with two pending tasks and one completed one, as the
      `get_by_status` tests build it. */
  method StatusFixture(t: Task) returns (store: TaskStore)
    ensures fresh(store) && store.Valid()
    ensures store.tasks == [t.(status := Pending, id := 1), t.(status := Pending, id := 2),
                            t.(status := Completed, id := 3)]
  {
    store := new TaskStore();
    var a := store.Add(t.(status := Pending));
    var b := store.Add(t.(status := Pending));
    var c := store.Add(t.(status := Completed));
  }

  /** `get_by_status(PENDING)` returns exactly the two pending tasks: two
      results, all of them pending, both pending tasks among them and not
      the completed one. */
  method PendingByStatus(t: Task) returns (pending: seq<Task>)
    ensures |pending| == 2 && forall k :: 0 <= k < |pending| ==> pending[k].status == Pending
    ensures t.(status := Pending, id := 1) in pending && t.(status := Pending, id := 2) in pending
    ensures t.(status := Completed, id := 3) !in pending
  {
    var store := StatusFixture(t);
    var a, b, c := store.tasks[0], store.tasks[1], store.tasks[2];
    assert store.tasks == [a] + [b] + [c];
    assert multiset(store.tasks) == multiset{a, b, c};
    pending := store.GetByStatus(Pending);
    assert multiset(pending)[a] == multiset(store.tasks)[a];
    assert multiset(pending)[b] == multiset(store.tasks)[b];
    assert multiset(pending) == multiset{a, b} by {
      forall x ensures multiset(pending)[x] == multiset{a, b}[x] {
        assert multiset(pending)[x] == if x.status == Pending then multiset(store.tasks)[x] else 0;
      }
    }
    assert |multiset(pending)| == 2;
  }

  /** `get_by_status` with a status no task has returns the empty list. */
  method NoMatchByStatus(t: Task) returns (inProgress: seq<Task>)
    ensures inProgress == []
  {
    var store := StatusFixture(t);
    inProgress := store.GetByStatus(InProgress);
  }
}

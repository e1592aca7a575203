/** The in-memory task store: an ordered list of tasks and an auto-increment
    id counter, with CRUD operations and a status query. Tasks are values:
    the store's sequence is the single owner of every stored task. */
module TaskStoreService {
  import opened Wrappers
  import opened Tasks

  // ---------------------------------------------------------------------------
  // Facts about a list of tasks
  // ---------------------------------------------------------------------------

  /** No two tasks in `ts` share an id. */
  predicate IdsDistinct(ts: seq<Task>) {
    forall i, j :: 0 <= i < j < |ts| ==> ts[i].id != ts[j].id
  }

  /** Every id in `ts` lies in `[1, bound)`. */
  predicate IdsBelow(ts: seq<Task>, bound: int) {
    forall i :: 0 <= i < |ts| ==> 1 <= ts[i].id < bound
  }

  /** No task in `ts` has id `id`. */
  predicate NoMatch(ts: seq<Task>, id: int) {
    forall i :: 0 <= i < |ts| ==> ts[i].id != id
  }

  /** `i` is the position a front-to-back scan for `id` stops at. */
  predicate IsFirstMatch(ts: seq<Task>, id: int, i: int) {
    && 0 <= i < |ts|
    && ts[i].id == id
    && forall k :: 0 <= k < i ==> ts[k].id != id
  }

  /** A scan for an id that occurs does stop somewhere. */
  lemma {:induction false} FirstMatchExists(ts: seq<Task>, id: int)
    requires !NoMatch(ts, id)
    ensures exists i :: IsFirstMatch(ts, id, i)
  {
    if ts[0].id != id {
      FirstMatchExists(ts[1..], id);
      var i :| IsFirstMatch(ts[1..], id, i);
      assert IsFirstMatch(ts, id, i + 1);
    } else {
      assert IsFirstMatch(ts, id, 0);
    }
  }

  /** With distinct ids, a match is the only match. */
  lemma FirstMatchIsOnlyMatch(ts: seq<Task>, id: int, i: int)
    requires IdsDistinct(ts) && IsFirstMatch(ts, id, i)
    ensures forall k :: 0 <= k < |ts| && k != i ==> ts[k].id != id
  {
  }

  /** The set of ids a list of tasks uses. */
  function IdSet(ts: seq<Task>): set<int> {
    set i | 0 <= i < |ts| :: ts[i].id
  }

  lemma {:induction false} IdSetSize(ts: seq<Task>)
    requires IdsDistinct(ts)
    ensures |IdSet(ts)| == |ts|
  {
    if ts != [] {
      var rest := ts[1..];
      IdSetSize(rest);
      assert IdSet(ts) == {ts[0].id} + IdSet(rest) by {
        forall x | x in IdSet(ts) ensures x in {ts[0].id} + IdSet(rest) {
          var i :| 0 <= i < |ts| && ts[i].id == x;
          if i > 0 { assert rest[i - 1].id == x; }
        }
      }
      assert ts[0].id !in IdSet(rest);
    }
  }

  /** The integers in `[lo, hi)`. */
  function Range(lo: int, hi: int): (r: set<int>)
    ensures forall x :: x in r <==> lo <= x < hi
    ensures |r| == if lo <= hi then hi - lo else 0
    decreases hi - lo
  {
    if lo >= hi then {} else {lo} + Range(lo + 1, hi)
  }

  lemma SubsetSize(a: set<int>, b: set<int>)
    requires a <= b
    ensures |a| <= |b|
  {
    assert b == (b - a) + a;
    assert (b - a) * a == {};
  }

  /** Pigeonhole: distinct ids drawn from `[1, bound)` number fewer than `bound`. */
  lemma DistinctIdsBound(ts: seq<Task>, bound: int)
    requires 1 <= bound
    requires IdsDistinct(ts) && IdsBelow(ts, bound)
    ensures |ts| < bound
  {
    IdSetSize(ts);
    SubsetSize(IdSet(ts), Range(1, bound));
  }

  // ---------------------------------------------------------------------------
  // Status query
  // ---------------------------------------------------------------------------

  /** The tasks of `ts` whose status is `s`, in list order. */
  function FilterByStatus(ts: seq<Task>, s: TaskStatus): (r: seq<Task>)
    ensures |r| <= |ts|
    ensures forall k :: 0 <= k < |r| ==> r[k].status == s && r[k] in ts
    ensures forall k :: 0 <= k < |ts| && ts[k].status == s ==> ts[k] in r
  {
    if ts == [] then []
    else (if ts[0].status == s then [ts[0]] else []) + FilterByStatus(ts[1..], s)
  }

  /** Filtering distributes over concatenation. */
  lemma {:induction false} FilterAppend(a: seq<Task>, b: seq<Task>, s: TaskStatus)
    ensures FilterByStatus(a + b, s) == FilterByStatus(a, s) + FilterByStatus(b, s)
  {
    if a == [] {
      assert a + b == b;
    } else {
      assert (a + b)[1..] == a[1..] + b;
      FilterAppend(a[1..], b, s);
    }
  }

  /** Filtering keeps every matching task with its multiplicity and drops
      every other one. */
  lemma {:induction false} FilterMultiset(ts: seq<Task>, s: TaskStatus, t: Task)
    ensures multiset(FilterByStatus(ts, s))[t] == if t.status == s then multiset(ts)[t] else 0
  {
    if ts != [] {
      var head := if ts[0].status == s then [ts[0]] else [];
      FilterMultiset(ts[1..], s, t);
      assert FilterByStatus(ts, s) == head + FilterByStatus(ts[1..], s);
      assert multiset(FilterByStatus(ts, s)) == multiset(head) + multiset(FilterByStatus(ts[1..], s));
      assert ts == [ts[0]] + ts[1..];
      assert multiset(ts) == multiset{ts[0]} + multiset(ts[1..]);
    }
  }

  /** `a` is `b` with some elements left out, order kept. */
  predicate IsSubsequence(a: seq<Task>, b: seq<Task>)
    decreases |b|
  {
    if a == [] then true
    else if b == [] then false
    else if a[0] == b[0] then IsSubsequence(a[1..], b[1..])
    else IsSubsequence(a, b[1..])
  }

  lemma {:induction false} FilterIsSubsequence(ts: seq<Task>, s: TaskStatus)
    ensures IsSubsequence(FilterByStatus(ts, s), ts)
  {
    if ts != [] {
      FilterIsSubsequence(ts[1..], s);
      var r := FilterByStatus(ts[1..], s);
      if ts[0].status != s {
        assert FilterByStatus(ts, s) == r;
        if r != [] {
          assert r[0] != ts[0];
          assert IsSubsequence(r, ts[1..]);
        }
      } else {
        assert ([ts[0]] + r)[1..] == r;
      }
    }
  }

  // ---------------------------------------------------------------------------
  // Field update
  // ---------------------------------------------------------------------------

  /** The body of `update` once the task is found: each supplied field is
      assigned as given (no trimming, no re-validation), then the timestamp
      is refreshed. */
  function Patch(t: Task, title: Option<string>, description: Option<string>,
                 status: Option<TaskStatus>, now: int): (r: Task)
    ensures r.title == title.GetOr(t.title)
    ensures r.description == description.GetOr(t.description)
    ensures r.status == status.GetOr(t.status)
    ensures r.id == t.id && r.createdAt == t.createdAt && r.updatedAt == now
  {
    var t1 := if title.Some? then t.(title := title.value) else t;
    var t2 := if description.Some? then t1.(description := description.value) else t1;
    var t3 := if status.Some? then t2.(status := status.value) else t2;
    UpdateTimestamp(t3, now)
  }

  // ---------------------------------------------------------------------------
  // The store
  // ---------------------------------------------------------------------------

  class TaskStore {
    var tasks: seq<Task>
    var nextId: nat

    /** Ids are distinct, all in `[1, nextId)`, and the counter is positive. */
    ghost predicate Valid()
      reads this
    {
      nextId >= 1 && IdsDistinct(tasks) && IdsBelow(tasks, nextId)
    }

    /** `__init__`: no tasks, counter at 1. */
    constructor ()
      ensures Valid()
      ensures tasks == [] && nextId == 1
    {
      tasks := [];
      nextId := 1;
    }

    /** `add`: stamp the task with the counter, bump it, append. The task is
        stored whatever its title: nothing is validated here. */
    method Add(task: Task) returns (added: Task)
      requires Valid()
      modifies this
      ensures Valid()
      ensures added == task.(id := old(nextId))
      ensures nextId == old(nextId) + 1
      ensures tasks == old(tasks) + [added]
      ensures forall s :: GetByStatus(s) == old(GetByStatus(s)) + (if added.status == s then [added] else [])
    {
      ghost var before := tasks;
      added := task.(id := nextId);
      nextId := nextId + 1;
      tasks := tasks + [added];
      forall s ensures FilterByStatus(tasks, s) == FilterByStatus(before, s) + (if added.status == s then [added] else []) {
        FilterAppend(before, [added], s);
      }
    }

    /** The front-to-back scan shared by `get` and `update`. */
    method FindIndex(id: int) returns (idx: Option<nat>)
      ensures idx.None? <==> NoMatch(tasks, id)
      ensures idx.Some? ==> IsFirstMatch(tasks, id, idx.value)
    {
      var i := 0;
      while i < |tasks|
        invariant 0 <= i <= |tasks|
        invariant forall k :: 0 <= k < i ==> tasks[k].id != id
      {
        if tasks[i].id == id {
          return Some(i);
        }
        i := i + 1;
      }
      return None;
    }

    /** `get`: the first task with the id, or none. */
    method Get(id: int) returns (r: Option<Task>)
      ensures r.None? <==> NoMatch(tasks, id)
      ensures forall i :: IsFirstMatch(tasks, id, i) ==> r == Some(tasks[i])
    {
      var idx := FindIndex(id);
      if idx.None? {
        return None;
      }
      return Some(tasks[idx.value]);
    }

    /** `get_all`: a copy of the list, in insertion order. */
    function GetAll(): (r: seq<Task>)
      reads this
      ensures r == tasks
      ensures |r| == Count()
    {
      tasks
    }

    /** `update`: on a missing id nothing changes; otherwise the first (and,
        with `Valid()`, only) match is replaced in place by its patched
        version, and every other position is kept. */
    method Update(id: int, title: Option<string>, description: Option<string>,
                  status: Option<TaskStatus>, now: int) returns (r: Option<Task>)
      requires Valid()
      modifies this
      ensures Valid() && nextId == old(nextId)
      ensures r.None? <==> NoMatch(old(tasks), id)
      ensures r.None? ==> tasks == old(tasks)
      ensures forall i :: IsFirstMatch(old(tasks), id, i) ==>
                && r == Some(Patch(old(tasks)[i], title, description, status, now))
                && tasks == old(tasks)[i := r.value]
    {
      var idx := FindIndex(id);
      if idx.None? {
        return None;
      }
      var i := idx.value;
      var patched := Patch(tasks[i], title, description, status, now);
      tasks := tasks[i := patched];
      return Some(patched);
    }

    /** `delete`: remove the first task with the id and report whether there
        was one. */
    method Delete(id: int) returns (deleted: bool)
      requires Valid()
      modifies this
      ensures Valid() && nextId == old(nextId)
      ensures deleted <==> !NoMatch(old(tasks), id)
      ensures !deleted ==> tasks == old(tasks)
      ensures forall i :: IsFirstMatch(old(tasks), id, i) ==>
                tasks == old(tasks)[..i] + old(tasks)[i + 1..]
      ensures deleted ==> |tasks| == |old(tasks)| - 1 && NoMatch(tasks, id)
    {
      var i := 0;
      while i < |tasks|
        invariant 0 <= i <= |tasks|
        invariant tasks == old(tasks)
        invariant forall k :: 0 <= k < i ==> tasks[k].id != id
      {
        if tasks[i].id == id {
          ghost var before := tasks;
          FirstMatchIsOnlyMatch(before, id, i);
          tasks := tasks[..i] + tasks[i + 1..];
          assert forall k :: 0 <= k < |tasks| ==>
            tasks[k] == (if k < i then before[k] else before[k + 1]);
          return true;
        }
        i := i + 1;
      }
      return false;
    }

    /** `count`: the number of stored tasks. */
    function Count(): (n: nat)
      reads this
      ensures n == |tasks|
    {
      |tasks|
    }

    /** The count stays below the counter, since every stored id is a
        distinct value in `[1, nextId)`. */
    lemma CountBelowNextId()
      requires Valid()
      ensures Count() < nextId
    {
      DistinctIdsBound(tasks, nextId);
    }

    /** `clear`: drop every task and restart the counter at 1. */
    method Clear()
      modifies this
      ensures Valid()
      ensures tasks == [] && nextId == 1
    {
      tasks := [];
      nextId := 1;
    }

    /** `get_by_status`: exactly the tasks with status `s`, in list order,
        each as often as it is stored. */
    function GetByStatus(s: TaskStatus): (r: seq<Task>)
      reads this
      ensures forall k :: 0 <= k < |r| ==> r[k].status == s
      ensures r == [] <==> forall k :: 0 <= k < |tasks| ==> tasks[k].status != s
      ensures IsSubsequence(r, tasks)
      ensures forall t :: multiset(r)[t] == if t.status == s then multiset(tasks)[t] else 0
    {
      FilterIsSubsequence(tasks, s);
      forall t ensures multiset(FilterByStatus(tasks, s))[t] == if t.status == s then multiset(tasks)[t] else 0 {
        FilterMultiset(tasks, s, t);
      }
      FilterByStatus(tasks, s)
    }
  }
}

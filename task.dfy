/** The task entity: its status enumeration, its six fields, the whitespace
    trimming and title validation done at construction, and the timestamp
    refresh. Timestamps are abstract integers supplied by the caller. */
module Tasks {
  import opened Wrappers

  /** The three lifecycle states; no other value exists. */
  datatype TaskStatus = Pending | InProgress | Completed

  /** A task record. Equality on a datatype is structural over all six fields. */
  datatype Task = Task(
    title: string,
    description: string,
    status: TaskStatus,
    id: int,
    createdAt: int,
    updatedAt: int)

  /** The enumeration is closed: every status is one of the three, and they
      are pairwise different. */
  lemma StatusIsOneOfThree(s: TaskStatus)
    ensures s == Pending || s == InProgress || s == Completed
    ensures Pending != InProgress && InProgress != Completed && Pending != Completed
  {
  }

  /** Two tasks are equal exactly when all six fields are. */
  lemma TaskEqualityIsStructural(a: Task, b: Task)
    ensures a == b <==> && a.title == b.title && a.description == b.description
                        && a.status == b.status && a.id == b.id
                        && a.createdAt == b.createdAt && a.updatedAt == b.updatedAt
  {
  }

  /** The two reasons construction is refused. */
  datatype ValidationError = EmptyTitle | TitleTooLong

  const MaxTitleLength: nat := 1000

  // ---------------------------------------------------------------------------
  // Whitespace trimming (Python's str.strip() with no argument)
  // ---------------------------------------------------------------------------

  /** The code points Python's str.isspace accepts, which are exactly the
      ones str.strip() removes: U+0009..U+000D, U+001C..U+0020, U+0085,
      U+00A0, U+1680, U+2000..U+200A, U+2028, U+2029, U+202F, U+205F and
      U+3000. */
  const Whitespace: set<char> := {
    '\U{0009}', '\U{000A}', '\U{000B}', '\U{000C}', '\U{000D}', '\U{001C}',
    '\U{001D}', '\U{001E}', '\U{001F}', '\U{0020}', '\U{0085}', '\U{00A0}',
    '\U{1680}', '\U{2000}', '\U{2001}', '\U{2002}', '\U{2003}', '\U{2004}',
    '\U{2005}', '\U{2006}', '\U{2007}', '\U{2008}', '\U{2009}', '\U{200A}',
    '\U{2028}', '\U{2029}', '\U{202F}', '\U{205F}', '\U{3000}'
  }

  predicate IsSpace(c: char) {
    c in Whitespace
  }

  predicate AllSpace(s: string) {
    forall i :: 0 <= i < |s| ==> IsSpace(s[i])
  }

  /** Neither end of `s` is whitespace (vacuously true of the empty string). */
  predicate Trimmed(s: string) {
    s != [] ==> !IsSpace(s[0]) && !IsSpace(s[|s| - 1])
  }

  /** The length of the longest all-whitespace prefix of `s`. */
  function LeadingSpaces(s: string): (n: nat)
    ensures n <= |s|
    ensures forall i :: 0 <= i < n ==> IsSpace(s[i])
    ensures n < |s| ==> !IsSpace(s[n])
  {
    if s != [] && IsSpace(s[0]) then 1 + LeadingSpaces(s[1..]) else 0
  }

  /** The length of the longest all-whitespace suffix of `s`. */
  function TrailingSpaces(s: string): (n: nat)
    ensures n <= |s|
    ensures forall i :: |s| - n <= i < |s| ==> IsSpace(s[i])
    ensures n < |s| ==> !IsSpace(s[|s| - 1 - n])
  {
    if s != [] && IsSpace(s[|s| - 1]) then 1 + TrailingSpaces(s[..|s| - 1]) else 0
  }

  /** Python's `s.strip()`: what lies between the leading and the trailing
      whitespace. */
  function Trim(s: string): (r: string)
    ensures |r| <= |s|
    ensures Trimmed(r)
  {
    var a := LeadingSpaces(s);
    var m := s[a..];
    var b := TrailingSpaces(m);
    var r := m[..|m| - b];
    assert r != [] ==> r[0] == s[a] && r[|r| - 1] == m[|m| - 1 - b];
    r
  }

  /** Stripping leaves nothing exactly when the string is all whitespace. */
  lemma TrimEmptyIffBlank(s: string)
    ensures Trim(s) == [] <==> AllSpace(s)
  {
    var a := LeadingSpaces(s);
    var m := s[a..];
    var b := TrailingSpaces(m);
    if Trim(s) == [] {
      assert m == m[|m| - b..];
    }
  }

  lemma {:induction false} SplitThree(s: string, i: nat, j: nat)
    requires i <= j <= |s|
    ensures s == s[..i] + s[i..j] + s[j..]
  {
  }

  /** Every string is its leading whitespace, its trim and its trailing
      whitespace, in that order. */
  lemma {:induction false} TrimDecomposes(s: string)
    ensures var a := LeadingSpaces(s);
            var b := TrailingSpaces(s[a..]);
            s == s[..a] + Trim(s) + s[|s| - b..]
            && AllSpace(s[..a]) && AllSpace(s[|s| - b..])
  {
    var a := LeadingSpaces(s);
    var m := s[a..];
    var b := TrailingSpaces(m);
    assert Trim(s) == s[a..|s| - b];
    assert m[|m| - b..] == s[|s| - b..];
    SplitThree(s, a, |s| - b);
  }

  lemma {:induction false} LeadingSpacesOfPadded(p: string, t: string)
    requires AllSpace(p)
    requires t == [] || !IsSpace(t[0])
    ensures LeadingSpaces(p + t) == |p|
  {
    if p != [] {
      assert (p + t)[1..] == p[1..] + t;
      LeadingSpacesOfPadded(p[1..], t);
    } else {
      assert p + t == t;
    }
  }

  lemma {:induction false} TrailingSpacesOfPadded(t: string, q: string)
    requires AllSpace(q)
    requires t == [] || !IsSpace(t[|t| - 1])
    ensures TrailingSpaces(t + q) == |q|
  {
    if q != [] {
      assert (t + q)[..|t + q| - 1] == t + q[..|q| - 1];
      TrailingSpacesOfPadded(t, q[..|q| - 1]);
    } else {
      assert t + q == t;
    }
  }

  /** The defining property of strip: whatever whitespace surrounds a string
      with non-whitespace ends, trimming returns exactly that string. Together
      with `Trimmed(Trim(s))` and `TrimDecomposes` this pins `Trim` down. */
  lemma TrimOfPadded(p: string, t: string, q: string)
    requires AllSpace(p) && AllSpace(q)
    requires t != [] && Trimmed(t)
    ensures Trim(p + t + q) == t
  {
    var s := p + t + q;
    assert s == p + (t + q);
    LeadingSpacesOfPadded(p, t + q);
    assert s[|p|..] == t + q;
    TrailingSpacesOfPadded(t, q);
    assert s[|p|..|s| - |q|] == t;
  }

  /** Stripping twice is stripping once. */
  lemma TrimIdempotent(s: string)
    ensures Trim(Trim(s)) == Trim(s)
  {
    var r := Trim(s);
    if r != [] {
      assert [] + r + [] == r;
      TrimOfPadded([], r, []);
    }
  }

  // ---------------------------------------------------------------------------
  // Validation and construction
  // ---------------------------------------------------------------------------

  /** The title condition construction enforces. */
  predicate TitleValid(title: string) {
    0 < |title| <= MaxTitleLength
  }

  /** `Task._validate`: the empty check comes first, then the length check. */
  function Validate(t: Task): (r: Option<ValidationError>)
    ensures r == None <==> TitleValid(t.title)
    ensures r == Some(EmptyTitle) <==> t.title == []
    ensures r == Some(TitleTooLong) <==> |t.title| > MaxTitleLength
  {
    if t.title == [] then Some(EmptyTitle)
    else if |t.title| > MaxTitleLength then Some(TitleTooLong)
    else None
  }

  /** Dataclass construction with `__post_init__`: strip the title and the
      description, then validate the stripped title. */
  function NewTask(title: string, description: string, status: TaskStatus,
                   id: int, createdAt: int, updatedAt: int): (r: Result<Task, ValidationError>)
    ensures r == Err(EmptyTitle) <==> AllSpace(title)
    ensures r == Err(TitleTooLong) <==> |Trim(title)| > MaxTitleLength
    ensures r.Ok? <==> TitleValid(Trim(title))
    ensures r.Ok? ==> r.value == Task(Trim(title), Trim(description), status, id, createdAt, updatedAt)
    ensures r.Ok? ==> TitleValid(r.value.title) && Trimmed(r.value.title) && Trimmed(r.value.description)
  {
    TrimEmptyIffBlank(title);
    var t := Task(Trim(title), Trim(description), status, id, createdAt, updatedAt);
    match Validate(t)
    case Some(e) => Err(e)
    case None => Ok(t)
  }

  /** `Task(title=...)` with every other field defaulted; both timestamps
      take the same instant `now`. */
  function Create(title: string, now: int): (r: Result<Task, ValidationError>)
    ensures r.Ok? <==> TitleValid(Trim(title))
    ensures r.Ok? ==> r.value.title == Trim(title) && r.value.description == ""
                      && r.value.status == Pending && r.value.id == 0
                      && r.value.createdAt == now && r.value.updatedAt == now
  {
    assert Trim("") == "";
    NewTask(title, "", Pending, 0, now, now)
  }

  /** A constructed task is a fixed point of construction: building a task
      from its own fields gives back the same task. */
  lemma NewTaskIsStable(title: string, description: string, status: TaskStatus,
                        id: int, createdAt: int, updatedAt: int)
    requires NewTask(title, description, status, id, createdAt, updatedAt).Ok?
    ensures var t := NewTask(title, description, status, id, createdAt, updatedAt).value;
            NewTask(t.title, t.description, t.status, t.id, t.createdAt, t.updatedAt) == Ok(t)
  {
    TrimIdempotent(title);
    TrimIdempotent(description);
  }

  /** A title with surrounding whitespace is accepted exactly when its core
      is, and the core is what is stored. */
  lemma NewTaskStripsPadding(p: string, core: string, q: string, description: string,
                             status: TaskStatus, id: int, createdAt: int, updatedAt: int)
    requires AllSpace(p) && AllSpace(q)
    requires core != [] && Trimmed(core)
    ensures var r := NewTask(p + core + q, description, status, id, createdAt, updatedAt);
            (r.Ok? <==> |core| <= MaxTitleLength) && (r.Ok? ==> r.value.title == core)
  {
    TrimOfPadded(p, core, q);
  }

  // ---------------------------------------------------------------------------
  // Timestamps
  // ---------------------------------------------------------------------------

  /** `Task.update_timestamp`: only `updatedAt` changes. */
  function UpdateTimestamp(t: Task, now: int): (r: Task)
    ensures r.updatedAt == now && r.createdAt == t.createdAt
    ensures r.title == t.title && r.description == t.description
    ensures r.status == t.status && r.id == t.id
  {
    t.(updatedAt := now)
  }

  predicate TimestampsOrdered(t: Task) {
    t.createdAt <= t.updatedAt
  }

  /** With a clock that does not run backwards, refreshing keeps
      `createdAt <= updatedAt` and never moves `updatedAt` back. */
  lemma UpdateTimestampMonotonic(t: Task, now: int)
    requires TimestampsOrdered(t) && t.updatedAt <= now
    ensures TimestampsOrdered(UpdateTimestamp(t, now))
    ensures t.updatedAt <= UpdateTimestamp(t, now).updatedAt
  {
  }
}

/**
 * The orderings of the task list (buildOrderBy in packages/backend/src/app.js),
 * as an ordering-spec datatype and the comparator it stands for instead of
 * the SQL ORDER BY text. Rows that tie on every sort key may come out in any
 * order, so the comparator is a total preorder and a listing is correct when
 * every adjacent pair respects it.
 */
module Ordering {
  import opened Wrappers
  import opened Text
  import opened Validation

  datatype Direction = Asc | Desc

  datatype OrderSpec =
    | ByCreated(direction: Direction)  // created_at in the given direction
    | ByTitle(direction: Direction)    // title COLLATE NOCASE, then created_at DESC
    | ByDueDate(direction: Direction)  // non-null due dates first, due_date, then created_at DESC

  /** A string is truthy in JavaScript unless it is empty. */
  predicate Present(v: Option<string>) {
    v.Some? && v.value != ""
  }

  /** buildOrderBy: "asc" selects ascending and any other direction text
      descending; a missing or unknown sort field selects created_at DESC
      whatever the direction. */
  function BuildOrderBy(sort: Option<string>, direction: string): (o: OrderSpec)
    ensures !Present(sort) || sort.value !in {"title", "created", "dueDate"} ==> o == ByCreated(Desc)
    ensures Present(sort) && sort.value in {"title", "created", "dueDate"} ==>
              o.direction == (if direction == "asc" then Asc else Desc)
    ensures sort == Some("title") <==> o.ByTitle?
    ensures sort == Some("dueDate") <==> o.ByDueDate?
  {
    var d := if direction == "asc" then Asc else Desc;
    if !Present(sort) || sort.value !in {"title", "created", "dueDate"} then ByCreated(Desc)
    else if sort.value == "title" then ByTitle(d)
    else if sort.value == "dueDate" then ByDueDate(d)
    else ByCreated(d)
  }

  /** The fallback ordering does not depend on the direction asked for. */
  lemma UnknownSortIgnoresDirection(sort: Option<string>, d1: string, d2: string)
    requires !Present(sort) || sort.value !in {"title", "created", "dueDate"}
    ensures BuildOrderBy(sort, d1) == BuildOrderBy(sort, d2) == ByCreated(Desc)
  {
  }

  /** x comes strictly before y in direction d. */
  predicate StrictlyBefore(d: Direction, x: string, y: string) {
    if d == Asc then LexLess(x, y) else LexLess(y, x)
  }

  /** The created_at DESC tiebreak. */
  predicate NewerFirst(a: Task, b: Task) {
    a.createdAt >= b.createdAt
  }

  /** Precedes(o, a, b): under o, a may be listed before b. */
  predicate Precedes(o: OrderSpec, a: Task, b: Task) {
    match o
    case ByCreated(d) =>
      if d == Asc then a.createdAt <= b.createdAt else a.createdAt >= b.createdAt
    case ByTitle(d) =>
      var x, y := Fold(a.title), Fold(b.title);
      if x == y then NewerFirst(a, b) else StrictlyBefore(d, x, y)
    case ByDueDate(d) =>
      match (a.dueDate, b.dueDate)
      case (Some(x), Some(y)) => if x == y then NewerFirst(a, b) else StrictlyBefore(d, x, y)
      case (Some(_), None) => true
      case (None, Some(_)) => false
      case (None, None) => NewerFirst(a, b)
  }

  lemma StrictlyBeforeTotal(d: Direction, x: string, y: string)
    ensures x == y || StrictlyBefore(d, x, y) || StrictlyBefore(d, y, x)
  {
    LexLessTrichotomy(x, y);
  }

  lemma StrictlyBeforeTransitive(d: Direction, x: string, y: string, z: string)
    requires StrictlyBefore(d, x, y) && StrictlyBefore(d, y, z)
    ensures StrictlyBefore(d, x, z)
  {
    if d == Asc { LexLessTransitive(x, y, z); } else { LexLessTransitive(z, y, x); }
  }

  lemma StrictlyBeforeAsymmetric(d: Direction, x: string, y: string)
    requires StrictlyBefore(d, x, y)
    ensures !StrictlyBefore(d, y, x) && x != y
  {
    if d == Asc { LexLessAsymmetric(x, y); } else { LexLessAsymmetric(y, x); }
    if x == y { LexLessIrreflexive(x); }
  }

  /** Any two tasks can be ordered one way or the other. */
  lemma PrecedesTotal(o: OrderSpec, a: Task, b: Task)
    ensures Precedes(o, a, b) || Precedes(o, b, a)
  {
    match o
    case ByCreated(_) =>
    case ByTitle(d) => StrictlyBeforeTotal(d, Fold(a.title), Fold(b.title));
    case ByDueDate(d) =>
      if a.dueDate.Some? && b.dueDate.Some? {
        StrictlyBeforeTotal(d, a.dueDate.value, b.dueDate.value);
      }
  }

  lemma PrecedesTransitive(o: OrderSpec, a: Task, b: Task, c: Task)
    requires Precedes(o, a, b) && Precedes(o, b, c)
    ensures Precedes(o, a, c)
  {
    match o
    case ByCreated(_) =>
    case ByTitle(d) =>
      var x, y, z := Fold(a.title), Fold(b.title), Fold(c.title);
      KeyThenNewerTransitive(d, x, y, z, a, b, c);
    case ByDueDate(d) =>
      if a.dueDate.Some? && b.dueDate.Some? && c.dueDate.Some? {
        KeyThenNewerTransitive(d, a.dueDate.value, b.dueDate.value, c.dueDate.value, a, b, c);
      }
  }

  /** The shared step of both keyed orders: a key compared in direction d,
      equal keys broken by created_at DESC. */
  lemma KeyThenNewerTransitive(d: Direction, x: string, y: string, z: string, a: Task, b: Task, c: Task)
    requires if x == y then NewerFirst(a, b) else StrictlyBefore(d, x, y)
    requires if y == z then NewerFirst(b, c) else StrictlyBefore(d, y, z)
    ensures if x == z then NewerFirst(a, c) else StrictlyBefore(d, x, z)
  {
    if x != y && y != z {
      StrictlyBeforeTransitive(d, x, y, z);
      StrictlyBeforeAsymmetric(d, x, z);
    } else if x != y && x == z {
      StrictlyBeforeAsymmetric(d, x, y);
    }
  }

  /** Every adjacent pair of s respects o. */
  predicate SortedBy(o: OrderSpec, s: seq<Task>) {
    forall i :: 0 < i < |s| ==> Precedes(o, s[i - 1], s[i])
  }

  /** Adjacent order extends to every pair, by transitivity. */
  lemma {:induction false} SortedPairwise(o: OrderSpec, s: seq<Task>, i: int, j: int)
    requires SortedBy(o, s) && 0 <= i < j < |s|
    ensures Precedes(o, s[i], s[j])
    decreases j - i
  {
    if i + 1 < j {
      SortedPairwise(o, s, i + 1, j);
      PrecedesTransitive(o, s[i], s[i + 1], s[j]);
    }
  }

  /** Inserts t into a sorted listing, after every element it may not
      precede. */
  function Insert(o: OrderSpec, t: Task, s: seq<Task>): (r: seq<Task>)
    requires SortedBy(o, s)
    ensures SortedBy(o, r)
    ensures multiset(r) == multiset(s) + multiset{t}
    ensures r[0] == t || (s != [] && r[0] == s[0])
  {
    if s == [] then [t]
    else if Precedes(o, t, s[0]) then [t] + s
    else
      PrecedesTotal(o, t, s[0]);
      var rest := Insert(o, t, s[1..]);
      assert s == [s[0]] + s[1..];
      [s[0]] + rest
  }

  /** Sorting by title: case-insensitive (ASCII letters only) in the
      requested direction, equal titles newest first. */
  lemma TitleOrder(d: Direction, s: seq<Task>, i: int, j: int)
    requires SortedBy(ByTitle(d), s) && 0 <= i < j < |s|
    ensures !StrictlyBefore(d, Fold(s[j].title), Fold(s[i].title))
    ensures Fold(s[i].title) == Fold(s[j].title) ==> s[i].createdAt >= s[j].createdAt
  {
    SortedPairwise(ByTitle(d), s, i, j);
    var x, y := Fold(s[i].title), Fold(s[j].title);
    if x != y { StrictlyBeforeAsymmetric(d, x, y); } else { LexLessIrreflexive(x); }
  }

  /** Sorting by due date: in either direction every task with a due date
      precedes every task without one; due dates follow the requested
      direction, and equal due dates (or two missing ones) put the newest
      first. */
  lemma DueDateOrder(d: Direction, s: seq<Task>, i: int, j: int)
    requires SortedBy(ByDueDate(d), s) && 0 <= i < j < |s|
    ensures s[i].dueDate.None? ==> s[j].dueDate.None?
    ensures s[i].dueDate.Some? && s[j].dueDate.Some? ==>
              !StrictlyBefore(d, s[j].dueDate.value, s[i].dueDate.value)
    ensures s[i].dueDate == s[j].dueDate ==> s[i].createdAt >= s[j].createdAt
  {
    SortedPairwise(ByDueDate(d), s, i, j);
    if s[i].dueDate.Some? && s[j].dueDate.Some? {
      var x, y := s[i].dueDate.value, s[j].dueDate.value;
      if x != y { StrictlyBeforeAsymmetric(d, x, y); } else { LexLessIrreflexive(x); }
    }
  }

  /** Sorting by creation time follows the requested direction. */
  lemma CreatedOrder(d: Direction, s: seq<Task>, i: int, j: int)
    requires SortedBy(ByCreated(d), s) && 0 <= i < j < |s|
    ensures d == Asc ==> s[i].createdAt <= s[j].createdAt
    ensures d == Desc ==> s[i].createdAt >= s[j].createdAt
  {
    SortedPairwise(ByCreated(d), s, i, j);
  }
}

/** The task records of the page and the three list transforms its handlers
    apply: `todos.map(...)` that rewrites the `completed` flag or the `text`
    of the records with a given id, and `todos.filter(...)` that drops them. */
module TodoList {

  /** One task as the remote collection stores it. */
  datatype Todo = Todo(id: string, text: string, completed: bool)

  /** The ids of a list, in order. */
  function Ids(s: seq<Todo>): seq<string> {
    seq(|s|, k requires 0 <= k < |s| => s[k].id)
  }

  /** No two records of the list share an id. */
  predicate DistinctIds(s: seq<Todo>) {
    forall i, j :: 0 <= i < j < |s| ==> s[i].id != s[j].id
  }

  /** Every record carrying `id` has `completed == c`. */
  predicate AllWithIdHave(s: seq<Todo>, id: string, c: bool) {
    forall k :: 0 <= k < |s| && s[k].id == id ==> s[k].completed == c
  }

  /** No record of the list carries `id`. */
  predicate AbsentId(s: seq<Todo>, id: string) {
    forall k :: 0 <= k < |s| ==> s[k].id != id
  }

  /** `s.map(t => t.id === id ? {...t, completed: c} : t)`: the records with
      that id get flag `c`, every other record is kept, in the same order. */
  function SetCompleted(s: seq<Todo>, id: string, c: bool): (r: seq<Todo>)
    ensures |r| == |s|
    ensures forall k :: 0 <= k < |s| ==> r[k].id == s[k].id && r[k].text == s[k].text
    ensures forall k :: 0 <= k < |s| && s[k].id == id ==> r[k].completed == c
    ensures forall k :: 0 <= k < |s| && s[k].id != id ==> r[k] == s[k]
  {
    if s == [] then []
    else
      var t := if s[0].id == id then s[0].(completed := c) else s[0];
      [t] + SetCompleted(s[1..], id, c)
  }

  /** `s.map(t => t.id === id ? {...t, text: x} : t)`: the records with that
      id get text `x` (as given, not trimmed), every other record is kept. */
  function SetText(s: seq<Todo>, id: string, x: string): (r: seq<Todo>)
    ensures |r| == |s|
    ensures forall k :: 0 <= k < |s| ==> r[k].id == s[k].id && r[k].completed == s[k].completed
    ensures forall k :: 0 <= k < |s| && s[k].id == id ==> r[k].text == x
    ensures forall k :: 0 <= k < |s| && s[k].id != id ==> r[k] == s[k]
  {
    if s == [] then []
    else
      var t := if s[0].id == id then s[0].(text := x) else s[0];
      [t] + SetText(s[1..], id, x)
  }

  /** How many records of the list carry `id`. */
  function CountId(s: seq<Todo>, id: string): nat {
    if s == [] then 0 else (if s[0].id == id then 1 else 0) + CountId(s[1..], id)
  }

  /** `s.filter(t => t.id !== id)`: exactly the records with that id go, as
      many as there are, and every other record stays. */
  function RemoveId(s: seq<Todo>, id: string): (r: seq<Todo>)
    ensures |r| + CountId(s, id) == |s|
    ensures forall t :: t in r <==> t in s && t.id != id
  {
    if s == [] then []
    else if s[0].id == id then RemoveId(s[1..], id)
    else [s[0]] + RemoveId(s[1..], id)
  }

  /** `a` is `b` with some records left out, the rest in their order. */
  ghost predicate IsSubsequence(a: seq<Todo>, b: seq<Todo>)
    decreases |b|
  {
    a == [] ||
    (b != [] && ((a[0] == b[0] && IsSubsequence(a[1..], b[1..])) || IsSubsequence(a, b[1..])))
  }

  // ----- the optimistic toggle and its rollback -----

  /** Setting the flag twice is setting it once, to the second value: two
      toggles of the same record in a row leave the flag the second one sets
      (the checkbox passes the record's current flag as `currentStatus`, so
      the second toggle maps over the list the first one produced). */
  lemma SetCompletedTwice(s: seq<Todo>, id: string, c1: bool, c2: bool)
    ensures SetCompleted(SetCompleted(s, id, c1), id, c2) == SetCompleted(s, id, c2)
  {
  }

  /** Writing back the value the records already had gives the list back:
      the rollback, which maps the list the handler saw with `currentStatus`,
      restores that list when `currentStatus` was the record's flag. */
  lemma SetCompletedSame(s: seq<Todo>, id: string, c: bool)
    requires AllWithIdHave(s, id, c)
    ensures SetCompleted(s, id, c) == s
  {
  }

  /** Toggling a record twice, each time with the flag it shows, gives the
      list back, whenever `currentStatus` was the flag of the record(s) with
      that id. */
  lemma ToggleTwiceRestores(s: seq<Todo>, id: string, currentStatus: bool)
    requires AllWithIdHave(s, id, currentStatus)
    ensures SetCompleted(SetCompleted(s, id, !currentStatus), id, currentStatus) == s
  {
    SetCompletedTwice(s, id, !currentStatus, currentStatus);
    SetCompletedSame(s, id, currentStatus);
  }

  /** With no record carrying that id, the map changes nothing. */
  lemma SetTextAbsent(s: seq<Todo>, id: string, x: string)
    requires AbsentId(s, id)
    ensures SetText(s, id, x) == s
  {
  }

  // ----- ids are never rewritten -----

  lemma SetCompletedKeepsIds(s: seq<Todo>, id: string, c: bool)
    ensures Ids(SetCompleted(s, id, c)) == Ids(s)
    ensures DistinctIds(SetCompleted(s, id, c)) <==> DistinctIds(s)
  {
  }

  lemma SetTextKeepsIds(s: seq<Todo>, id: string, x: string)
    ensures Ids(SetText(s, id, x)) == Ids(s)
    ensures DistinctIds(SetText(s, id, x)) <==> DistinctIds(s)
  {
  }

  /** The filtered list keeps the survivors in their relative order. */
  lemma {:induction false} RemoveIdIsSubsequence(s: seq<Todo>, id: string)
    ensures IsSubsequence(RemoveId(s, id), s)
  {
    if s != [] {
      RemoveIdIsSubsequence(s[1..], id);
      var r := RemoveId(s, id);
      if s[0].id != id {
        assert r[0] == s[0] && r[1..] == RemoveId(s[1..], id);
      }
    }
  }

  /** A list with distinct ids keeps them distinct once filtered. */
  lemma {:induction false} RemoveIdKeepsDistinct(s: seq<Todo>, id: string)
    requires DistinctIds(s)
    ensures DistinctIds(RemoveId(s, id))
  {
    if s != [] {
      var tail := s[1..];
      assert DistinctIds(tail);
      RemoveIdKeepsDistinct(tail, id);
      if s[0].id != id {
        var rest := RemoveId(tail, id);
        var r := [s[0]] + rest;
        forall j | 0 < j < |r| ensures r[0].id != r[j].id {
          assert r[j] in rest;
          assert r[j] in tail;
          var m :| 0 <= m < |tail| && tail[m] == r[j];
          assert s[m + 1] == r[j];
        }
        forall i, j | 0 <= i < j < |r| ensures r[i].id != r[j].id {
          if 0 < i {
            assert r[i] == rest[i - 1] && r[j] == rest[j - 1];
          }
        }
      }
    }
  }

  /** With no record carrying that id, the filter changes nothing. */
  lemma {:induction false} RemoveAbsentId(s: seq<Todo>, id: string)
    requires AbsentId(s, id)
    ensures RemoveId(s, id) == s
  {
    if s != [] {
      RemoveAbsentId(s[1..], id);
      assert s == [s[0]] + s[1..];
    }
  }

  /** With distinct ids, deleting the id found at position `k` is cutting
      out exactly that one record. */
  lemma {:induction false} RemoveUniqueId(s: seq<Todo>, id: string, k: nat)
    requires DistinctIds(s) && k < |s| && s[k].id == id
    ensures RemoveId(s, id) == s[..k] + s[k + 1..]
  {
    var tail := s[1..];
    if k == 0 {
      RemoveAbsentId(tail, id);
    } else {
      assert DistinctIds(tail);
      RemoveUniqueId(tail, id, k - 1);
      assert s[..k] == [s[0]] + tail[..k - 1];
      assert s[k + 1..] == tail[k..];
    }
  }

  /** Appending a record whose id is new keeps the ids distinct. */
  lemma AppendFreshKeepsDistinct(s: seq<Todo>, t: Todo)
    requires DistinctIds(s) && AbsentId(s, t.id)
    ensures DistinctIds(s + [t])
  {
  }
}

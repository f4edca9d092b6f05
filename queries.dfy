/** The query shapes the blog's ORM calls use on a table held as a sequence of
    rows: the first row matching a filter (`filter(...).first()`, and hence
    `filter(...).exists()`), `get(...)` with its two exceptions, and the rows
    kept by a filter (`filter(...)`, and the survivors of a cascading delete). */
module Queries {

  datatype Option<T> = None | Some(value: T)

  /** Index of the first row satisfying `p`, or None when no row does. */
  function IndexWhere<T>(s: seq<T>, p: T -> bool): (r: Option<nat>)
    ensures r.Some? ==> r.value < |s| && p(s[r.value])
    ensures r.Some? ==> forall i :: 0 <= i < r.value ==> !p(s[i])
    ensures r.None? <==> forall i :: 0 <= i < |s| ==> !p(s[i])
  {
    if s == [] then None
    else if p(s[0]) then Some(0)
    else
      match IndexWhere(s[1..], p)
      case None => None
      case Some(i) => Some(i + 1)
  }

  /** The three results of Django's `Model.objects.get(<filter>)`. */
  datatype GetResult = DoesNotExist | Found(index: nat) | MultipleObjectsReturned

  /** `get(<filter>)`: the one matching row, or which exception is raised. */
  function GetWhere<T>(s: seq<T>, p: T -> bool): (r: GetResult)
    ensures r.DoesNotExist? <==> forall i :: 0 <= i < |s| ==> !p(s[i])
    ensures r.Found? ==> r.index < |s| && p(s[r.index])
    ensures r.Found? ==> forall i :: 0 <= i < |s| && i != r.index ==> !p(s[i])
    ensures r.MultipleObjectsReturned? <==> exists i, j :: 0 <= i < j < |s| && p(s[i]) && p(s[j])
  {
    match IndexWhere(s, p)
    case None => DoesNotExist
    case Some(i) =>
      match IndexWhere(s[i + 1..], p)
      case None => Found(i)
      case Some(j) =>
        assert s[i + 1..][j] == s[i + 1 + j];
        MultipleObjectsReturned
  }

  /** `filter(<p>)`: the rows satisfying `p`, in their original order. */
  function Filter<T(!new)>(s: seq<T>, p: T -> bool): (r: seq<T>)
    ensures |r| <= |s|
    ensures forall x :: x in r <==> x in s && p(x)
    ensures forall x :: multiset(r)[x] == if p(x) then multiset(s)[x] else 0
  {
    if s == [] then []
    else
      assert s == [s[0]] + s[1..];
      if p(s[0]) then [s[0]] + Filter(s[1..], p) else Filter(s[1..], p)
  }
}

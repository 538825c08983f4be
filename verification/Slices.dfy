/** Slices used as sets. */
module Slices {
  /** SliceIdx, findStringInSlice */
  function IndexOf<T(==)>(s: seq<T>, x: T): (i: int)
    ensures -1 <= i < |s|
    ensures i == -1 <==> x !in s
    ensures i >= 0 ==> s[i] == x && x !in s[..i]
    decreases |s|
  {
    if s == [] then -1
    else if s[0] == x then 0
    else
      var i := IndexOf(s[1..], x);
      assert s == [s[0]] + s[1..];
      assert i >= 0 ==> s[..i + 1] == [s[0]] + s[1..][..i];
      if i == -1 then -1 else i + 1
  }

  /** RemoveElemFromSlice: without the first occurrence. */
  function RemoveElem<T(==)>(s: seq<T>, x: T): seq<T> {
    var i := IndexOf(s, x);
    if i == -1 then s else s[..i] + s[i + 1..]
  }

  /** AddElemToSliceUniq */
  function AddUniq<T(==)>(s: seq<T>, x: T): seq<T> {
    if IndexOf(s, x) != -1 then s else s + [x]
  }

  predicate NoDups<T(==)>(s: seq<T>) {
    forall i, j :: 0 <= i < j < |s| ==> s[i] != s[j]
  }

  lemma RemoveElemWorks<T(!new)>(s: seq<T>, x: T)
    requires NoDups(s)
    ensures NoDups(RemoveElem(s, x))
    ensures forall y :: y in RemoveElem(s, x) <==> y in s && y != x
    ensures forall k :: 0 <= k < |s| && s[k] == x ==> RemoveElem(s, x) == s[..k] + s[k + 1..]
  {
    var i := IndexOf(s, x);
    if i >= 0 {
      var r := RemoveElem(s, x);
      assert forall k :: 0 <= k < |r| ==> r[k] == if k < i then s[k] else s[k + 1];
      forall y
        ensures y in r <==> y in s && y != x
      {
        if y in s && y != x {
          var k :| 0 <= k < |s| && s[k] == y;
          assert r[if k < i then k else k - 1] == y;
        }
      }
    }
  }

  lemma AddUniqWorks<T(!new)>(s: seq<T>, x: T)
    requires NoDups(s)
    ensures NoDups(AddUniq(s, x))
    ensures forall y :: y in AddUniq(s, x) <==> y in s || y == x
    ensures s <= AddUniq(s, x)
  {
  }

  lemma AppendWorks<T(!new)>(s: seq<T>, x: T)
    ensures NoDups(s + [x]) <==> NoDups(s) && x !in s
    ensures forall y :: y in s + [x] <==> y in s || y == x
  {
    if NoDups(s + [x]) {
      forall i, j | 0 <= i < j < |s|
        ensures s[i] != s[j]
      {
        assert (s + [x])[i] != (s + [x])[j];
      }
      forall i | 0 <= i < |s|
        ensures s[i] != x
      {
        assert (s + [x])[i] != (s + [x])[|s|];
      }
    }
  }
}

/** Rows of a relation table: inserting a pair, deleting the first matching
    row (`filter(...).first().delete()`) and deleting every matching row
    (`filter(...).delete()`), with the facts the views need about
    uniqueness. */
module Rows {
  import opened Common

  /** Delete every row equal to `x`. */
  function RemoveAll<T(==,!new)>(t: seq<T>, x: T): (r: seq<T>)
    ensures x !in r
    ensures forall y :: y != x ==> (y in r <==> y in t)
    decreases |t|
  {
    if t == [] then []
    else if t[0] == x then RemoveAll(t[1..], x)
    else [t[0]] + RemoveAll(t[1..], x)
  }

  /** Delete the first row equal to `x`, if any. */
  function RemoveFirst<T(==)>(t: seq<T>, x: T): (r: seq<T>)
    ensures x in t ==> |r| == |t| - 1
    ensures x !in t ==> r == t
    decreases |t|
  {
    if t == [] then []
    else if t[0] == x then t[1..]
    else [t[0]] + RemoveFirst(t[1..], x)
  }

  /** Appending a pair that is not yet stored keeps the rows unique. */
  lemma AppendNoDup<T(!new)>(t: seq<T>, x: T)
    requires NoDup(t) && x !in t
    ensures NoDup(t + [x])
  {
    var u := t + [x];
    forall i, j | 0 <= i < j < |u| ensures u[i] != u[j] {
      if j == |t| {
        assert u[i] == t[i];
      } else {
        assert u[i] == t[i] && u[j] == t[j];
      }
    }
  }

  lemma {:induction false} NoDupTail<T(!new)>(t: seq<T>)
    requires t != [] && NoDup(t)
    ensures NoDup(t[1..]) && t[0] !in t[1..]
  {
    var u := t[1..];
    forall i, j | 0 <= i < j < |u| ensures u[i] != u[j] {
      assert u[i] == t[i + 1] && u[j] == t[j + 1];
    }
  }

  lemma {:induction false} ConsNoDup<T(!new)>(x: T, t: seq<T>)
    requires NoDup(t) && x !in t
    ensures NoDup([x] + t)
  {
    var u := [x] + t;
    forall i, j | 0 <= i < j < |u| ensures u[i] != u[j] {
      assert u[j] == t[j - 1];
      if i > 0 {
        assert u[i] == t[i - 1];
      }
    }
  }

  /** Deleting rows keeps them unique. */
  lemma {:induction false} RemoveAllNoDup<T(!new)>(t: seq<T>, x: T)
    requires NoDup(t)
    ensures NoDup(RemoveAll(t, x))
    decreases |t|
  {
    if t != [] {
      NoDupTail(t);
      RemoveAllNoDup(t[1..], x);
      if t[0] != x {
        ConsNoDup(t[0], RemoveAll(t[1..], x));
      }
    }
  }

  /** On unique rows, deleting the first match deletes every match. */
  lemma {:induction false} RemoveFirstIsRemoveAll<T(!new)>(t: seq<T>, x: T)
    requires NoDup(t)
    ensures RemoveFirst(t, x) == RemoveAll(t, x)
    decreases |t|
  {
    if t != [] {
      NoDupTail(t);
      RemoveFirstIsRemoveAll(t[1..], x);
      if t[0] == x {
        assert RemoveAll(t[1..], x) == t[1..] by {
          RemoveAllAbsent(t[1..], x);
        }
      }
    }
  }

  /** Deleting a pair that is not stored changes nothing. */
  lemma {:induction false} RemoveAllAbsent<T(!new)>(t: seq<T>, x: T)
    requires x !in t
    ensures RemoveAll(t, x) == t
    decreases |t|
  {
    if t != [] {
      assert t[0] != x;
      RemoveAllAbsent(t[1..], x);
      assert t == [t[0]] + t[1..];
    }
  }

  /** Inserting a new pair and then deleting it restores the table exactly. */
  lemma {:induction false} InsertThenRemove<T(!new)>(t: seq<T>, x: T)
    requires x !in t
    ensures RemoveFirst(t + [x], x) == t
    ensures RemoveAll(t + [x], x) == t
    decreases |t|
  {
    if t == [] {
      assert [] + [x] == [x];
    } else {
      assert (t + [x])[0] == t[0];
      assert (t + [x])[1..] == t[1..] + [x];
      InsertThenRemove(t[1..], x);
      assert t == [t[0]] + t[1..];
    }
  }

  /** The stored pairs after a deletion: exactly the given pair is gone. */
  lemma RemoveAllElems<T(!new)>(t: seq<T>, x: T)
    ensures Elems(RemoveAll(t, x)) == Elems(t) - {x}
  {
  }

  lemma AppendElems<T(!new)>(t: seq<T>, x: T)
    ensures Elems(t + [x]) == Elems(t) + {x}
  {
  }
}

/** Shared vocabulary of the foodgram model: optional values and results,
    identifiers, the configuration constants the backend imports from its
    constants module, the requesting user, and small facts about sequences. */
module Common {

  /** A value that may be absent (a missing payload key, a missing query parameter). */
  datatype Option<+T> = None | Some(value: T)

  /** The outcome of an operation that may be rejected. */
  datatype Result<+T, +E> = Ok(value: T) | Err(error: E)

  type UserId = nat
  type RecipeId = nat
  type IngredientId = nat
  type TagId = nat

  /** The numeric constants of the backend's constants module, which is not
      part of this model; every operation takes them as a parameter. */
  datatype Config = Config(
    minAmount: int,        // MIN_INGREDIENT_AMOUNT
    maxAmount: int,        // MAX_INGREDIENT_AMOUNT
    minCookingTime: int,   // MIN_RECIPE_LENGTH_NAME, used as the cooking-time lower bound
    maxCookingTime: int,   // MAX_RECIPE_LENGTH_NAME, used as the cooking-time upper bound
    maxHashLength: nat     // MAX_HASH_LENGTH
  )
  {
    predicate WellFormed() {
      && minAmount <= maxAmount
      && minCookingTime <= maxCookingTime
      && maxHashLength >= 1
    }

    predicate AmountInRange(a: int) {
      minAmount <= a <= maxAmount
    }

    predicate CookingTimeInRange(t: int) {
      minCookingTime <= t <= maxCookingTime
    }
  }

  /** The user attached to a request: token authentication either yields a
      stored user or leaves the request anonymous. */
  datatype Requester = Anonymous | Authenticated(id: UserId)

  /** HTTP methods; GET, HEAD and OPTIONS are the framework's safe methods. */
  datatype HttpMethod = Get | Head | Options | Post | Put | Patch | Delete {
    predicate IsSafe() {
      Get? || Head? || Options?
    }
  }

  /** No element occurs twice. */
  ghost predicate NoDup<T>(s: seq<T>) {
    forall i, j :: 0 <= i < j < |s| ==> s[i] != s[j]
  }

  /** The set of the elements of a sequence, as Python's `set(list)`. */
  function Elems<T>(s: seq<T>): set<T> {
    set x | x in s
  }

  /** `len(list) == len(set(list))` is exactly "no element occurs twice". */
  lemma {:induction false} CardElemsIffNoDup<T>(s: seq<T>)
    ensures |Elems(s)| == |s| <==> NoDup(s)
    ensures |Elems(s)| <= |s|
  {
    if s == [] {
    } else {
      var t := s[..|s| - 1];
      var x := s[|s| - 1];
      assert s == t + [x];
      CardElemsIffNoDup(t);
      assert Elems(s) == Elems(t) + {x};
      if x in t {
        assert Elems(s) == Elems(t);
        var k :| 0 <= k < |t| && t[k] == x;
        assert s[k] == s[|s| - 1];
        assert !NoDup(s);
      } else {
        assert |Elems(s)| == |Elems(t)| + 1;
        if NoDup(t) {
          forall i, j | 0 <= i < j < |s|
            ensures s[i] != s[j]
          {
            if j == |s| - 1 {
              assert s[i] == t[i];
            } else {
              assert s[i] == t[i] && s[j] == t[j];
            }
          }
        } else {
          var i, j :| 0 <= i < j < |t| && t[i] == t[j];
          assert s[i] == s[j];
        }
      }
    }
  }

  /** Number of occurrences of `x` in `s` (rows matching a filter). */
  function Count<T(==)>(s: seq<T>, x: T): (n: nat)
    ensures n <= |s|
    ensures n == 0 <==> x !in s
  {
    if s == [] then 0
    else Count(s[..|s| - 1], x) + (if s[|s| - 1] == x then 1 else 0)
  }

  /** In a duplicate-free sequence every element occurs at most once. */
  lemma {:induction false} CountNoDup<T>(s: seq<T>, x: T)
    requires NoDup(s)
    ensures Count(s, x) == if x in s then 1 else 0
  {
    if s != [] {
      var t := s[..|s| - 1];
      assert NoDup(t) by {
        forall i, j | 0 <= i < j < |t| ensures t[i] != t[j] {
          assert t[i] == s[i] && t[j] == s[j];
        }
      }
      CountNoDup(t, x);
      if s[|s| - 1] == x {
        assert x !in t by {
          forall k | 0 <= k < |t| ensures t[k] != x {
            assert t[k] == s[k];
          }
        }
      }
      assert s == t + [s[|s| - 1]];
    }
  }

  /** `a` is obtained from `b` by deleting elements (order kept). */
  predicate IsSubsequence<T(==)>(a: seq<T>, b: seq<T>)
    decreases |b|
  {
    if b == [] then a == []
    else (a != [] && a[0] == b[0] && IsSubsequence(a[1..], b[1..])) || IsSubsequence(a, b[1..])
  }

  /** The elements of `s` that satisfy `p`, in order. */
  function Filter<T>(s: seq<T>, p: T -> bool): (r: seq<T>)
    ensures |r| <= |s|
    ensures forall i :: 0 <= i < |r| ==> r[i] in s && p(r[i])
    ensures forall i :: 0 <= i < |s| && p(s[i]) ==> s[i] in r
  {
    if s == [] then []
    else if p(s[0]) then [s[0]] + Filter(s[1..], p)
    else Filter(s[1..], p)
  }

  lemma {:induction false} FilterIsSubsequence<T>(s: seq<T>, p: T -> bool)
    ensures IsSubsequence(Filter(s, p), s)
  {
    if s != [] {
      FilterIsSubsequence(s[1..], p);
    }
  }
}

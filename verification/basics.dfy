/**
 * Small shared vocabulary: optional values (JavaScript `null` / `undefined`),
 * results with an error side (thrown errors), and the sequence operations the
 * document store applies to array fields (`$addToSet`, `$pull`).
 */
module Basics {

  datatype Option<+T> = None | Some(value: T)

  datatype Result<+T, +E> = Ok(value: T) | Err(error: E)

  /** No element occurs twice. */
  predicate NoDup<T(==)>(s: seq<T>) {
    forall i, j :: 0 <= i < j < |s| ==> s[i] != s[j]
  }

  /** Number of occurrences of `x` in `s`. */
  function Count<T(==)>(s: seq<T>, x: T): (n: nat)
    ensures n <= |s|
    ensures n == 0 <==> x !in s
  {
    if s == [] then 0 else (if s[0] == x then 1 else 0) + Count(s[1..], x)
  }

  /** `s` is `t` with some elements dropped, order kept. */
  predicate IsSubsequence<T(==)>(s: seq<T>, t: seq<T>)
    decreases |t|
  {
    if s == [] then true
    else if t == [] then false
    else if s[0] == t[0] then IsSubsequence(s[1..], t[1..])
    else IsSubsequence(s, t[1..])
  }

  /**
   * `$addToSet`: append `x` unless an equal element is already present.
   * The set of elements grows by exactly `x`, the old elements keep their
   * positions, and a duplicate-free array stays duplicate-free.
   */
  function AddToSet<T(==,!new)>(s: seq<T>, x: T): (r: seq<T>)
    ensures forall y :: y in r <==> y in s || y == x
    ensures |s| <= |r| <= |s| + 1 && r[..|s|] == s
    ensures NoDup(s) ==> NoDup(r) && Count(r, x) == 1
  {
    if x in s then
      assert NoDup(s) ==> Count(s, x) == 1 by {
        if NoDup(s) { CountOneWhenNoDup(s, x); }
      }
      s
    else
      CountAppend(s, x);
      assert Count(s, x) == 0;
      assert NoDup(s) ==> NoDup(s + [x]) by {
        if NoDup(s) { NoDupAppend(s, x); }
      }
      assert (s + [x])[..|s|] == s;
      s + [x]
  }

  /** `$pull` of a plain value: every element equal to `x` is removed. */
  function Pull<T(==,!new)>(s: seq<T>, x: T): (r: seq<T>)
    ensures x !in r
    ensures forall y :: y != x ==> (y in r <==> y in s)
    ensures |r| == |s| - Count(s, x)
    ensures IsSubsequence(r, s)
    ensures NoDup(s) ==> NoDup(r)
    ensures x !in s ==> r == s
  {
    if s == [] then []
    else
      var rest := Pull(s[1..], x);
      assert s == [s[0]] + s[1..];
      if s[0] == x then
        SubsequenceOfTail(rest, s);
        rest
      else
        assert NoDup(s) ==> NoDup([s[0]] + rest) by {
          if NoDup(s) {
            HeadNotInTail(s);
            NoDupPrepend(s[0], rest);
          }
        }
        [s[0]] + rest
  }

  lemma {:induction false} HeadNotInTail<T>(s: seq<T>)
    requires s != [] && NoDup(s)
    ensures s[0] !in s[1..]
  {
    forall k | 0 <= k < |s[1..]|
      ensures s[1..][k] != s[0]
    {
      assert s[1..][k] == s[k + 1];
    }
  }

  lemma NoDupPrepend<T>(x: T, s: seq<T>)
    requires NoDup(s) && x !in s
    ensures NoDup([x] + s)
  {
  }

  lemma NoDupAppend<T>(s: seq<T>, x: T)
    requires NoDup(s) && x !in s
    ensures NoDup(s + [x])
  {
  }

  lemma {:induction false} SubsequenceOfTail<T>(r: seq<T>, s: seq<T>)
    requires s != [] && IsSubsequence(r, s[1..])
    ensures IsSubsequence(r, s)
    decreases |s|, 1
  {
    if r != [] && r[0] == s[0] {
      SubsequenceDropFront(r, s[1..]);
    }
  }

  lemma {:induction false} SubsequenceDropFront<T>(r: seq<T>, t: seq<T>)
    requires r != [] && IsSubsequence(r, t)
    ensures IsSubsequence(r[1..], t)
    decreases |t|, 2
  {
    if r[0] == t[0] {
      SubsequenceOfTail(r[1..], t);
    } else {
      SubsequenceDropFront(r, t[1..]);
      SubsequenceOfTail(r[1..], t);
    }
  }

  lemma {:induction false} CountOneWhenNoDup<T>(s: seq<T>, x: T)
    requires NoDup(s) && x in s
    ensures Count(s, x) == 1
  {
    if s[0] == x {
      HeadNotInTail(s);
    } else {
      assert x in s[1..];
      CountOneWhenNoDup(s[1..], x);
    }
  }

  lemma {:induction false} CountAppend<T>(s: seq<T>, x: T)
    ensures Count(s + [x], x) == Count(s, x) + 1
  {
    if s == [] {
      assert [x][1..] == [];
    } else {
      assert (s + [x])[1..] == s[1..] + [x];
      CountAppend(s[1..], x);
    }
  }

  /** Adding an element that is already there changes nothing. */
  lemma AddToSetIdempotent<T(!new)>(s: seq<T>, x: T)
    ensures AddToSet(AddToSet(s, x), x) == AddToSet(s, x)
  {
  }
}

/** Order-preserving subsequences, shared by the string helpers and the
    pagination contract of the jurisdiction handlers. */
module Sequences {

  /** `s` can be obtained from `t` by deleting elements, keeping the rest in order. */
  predicate IsSubsequence<T(==)>(s: seq<T>, t: seq<T>)
    decreases |t|
  {
    if s == [] then true
    else if t == [] then false
    else if s[0] == t[0] then IsSubsequence(s[1..], t[1..])
    else IsSubsequence(s, t[1..])
  }

  /** Every element of a subsequence is an element of the whole. */
  lemma {:induction false} SubsequenceMembers<T>(s: seq<T>, t: seq<T>)
    requires IsSubsequence(s, t)
    ensures forall x :: x in s ==> x in t
  {
    if s != [] && t != [] {
      if s[0] == t[0] {
        SubsequenceMembers(s[1..], t[1..]);
        forall x | x in s ensures x in t {
          if x != s[0] { assert x in s[1..]; }
        }
      } else {
        SubsequenceMembers(s, t[1..]);
      }
    }
  }

  /** Dropping the first element of a subsequence leaves a subsequence. */
  lemma {:induction false} SubsequenceDropFront<T>(s: seq<T>, t: seq<T>)
    requires s != [] && IsSubsequence(s, t)
    ensures IsSubsequence(s[1..], t)
    decreases |t|, 0
  {
    if t != [] {
      if s[0] == t[0] {
        SubsequenceWeaken(s[1..], t[1..], t[0]);
      } else {
        SubsequenceDropFront(s, t[1..]);
        SubsequenceWeaken(s[1..], t[1..], t[0]);
      }
    }
  }

  /** Putting an element in front of the whole keeps a subsequence a subsequence. */
  lemma {:induction false} SubsequenceWeaken<T>(s: seq<T>, t: seq<T>, x: T)
    requires IsSubsequence(s, t)
    ensures IsSubsequence(s, [x] + t)
    decreases |t|, 1
  {
    var xt := [x] + t;
    assert xt[1..] == t;
    if s != [] && s[0] == x {
      SubsequenceDropFront(s, t);
    }
  }
}

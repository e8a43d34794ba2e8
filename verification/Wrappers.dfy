/** What the whole project shares: an optional value, how a database call ends, and facts about finite
    sets and sequences that recursion over them needs. */
module Wrappers {

  datatype Option<+T> = None | Some(value: T)

  /** What a database call does: answered, applied but the answer lost, or not applied. */
  datatype Outcome = Answered | AnswerLost | NotApplied

  /** Some member of a non-empty set. */
  ghost function AnyOf<T>(s: set<T>): (x: T)
    requires s != {}
    ensures x in s
  {
    var x :| x in s;
    x
  }

  /** Some member of `b` that a proper subset of it lacks. */
  ghost function Missing<T>(a: set<T>, b: set<T>): (x: T)
    requires a <= b && a != b
    ensures x in b && x !in a
  {
    assert b == a + (b - a);
    AnyOf(b - a)
  }

  /** One step of a loop over a set, in no particular order. */
  method Pick<T>(s: set<T>) returns (x: T)
    requires s != {}
    ensures x in s
  {
    x :| x in s;
  }

  lemma SubsetSize<T>(a: set<T>, b: set<T>)
    requires a <= b
    ensures |a| <= |b|
    ensures |a| == |b| ==> a == b
  {
    assert b == a + (b - a);
  }

  function Members<T>(s: seq<T>): set<T> {
    set x | x in s
  }

  /** A sequence without repetition has as many members as positions. */
  lemma {:induction false} MembersSize<T>(s: seq<T>)
    requires forall i, j :: 0 <= i < j < |s| ==> s[i] != s[j]
    ensures |Members(s)| == |s|
  {
    if s != [] {
      var n := |s| - 1;
      MembersSize(s[..n]);
      assert Members(s) == Members(s[..n]) + {s[n]};
    }
  }

  predicate IsDigit(c: char) {
    '0' <= c <= '9'
  }

  predicate AllDigits(s: string) {
    forall i :: 0 <= i < |s| ==> IsDigit(s[i])
  }
}

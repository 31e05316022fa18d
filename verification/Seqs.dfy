/** Sequences without repetition. */
module Seqs {
  ghost predicate Distinct<T>(s: seq<T>) {
    forall i, j | 0 <= i < j < |s| :: s[i] != s[j]
  }

  /** The sequence lists the set, in some order. */
  ghost predicate Lists<T(!new)>(s: seq<T>, all: set<T>) {
    Distinct(s) && forall x :: x in s <==> x in all
  }

  /** Taking one element out of a sequence without repetition removes it altogether. */
  lemma DistinctRemove<T>(s: seq<T>, i: nat)
    requires Distinct(s) && i < |s|
    ensures var rest := s[..i] + s[i + 1..];
            Distinct(rest) && forall x :: x in rest <==> x in s && x != s[i]
  {
    var rest := s[..i] + s[i + 1..];
    assert forall j | 0 <= j < |rest| :: rest[j] == if j < i then s[j] else s[j + 1];
    forall x | x in s && x != s[i]
      ensures x in rest
    {
      var j :| 0 <= j < |s| && s[j] == x;
      assert rest[if j < i then j else j - 1] == x;
    }
  }

  lemma DistinctTail<T>(s: seq<T>)
    requires Distinct(s) && s != []
    ensures Distinct(s[1..]) && s[0] !in s[1..] && forall x :: x in s[1..] <==> x in s && x != s[0]
  {
    DistinctRemove(s, 0);
    assert s[..0] + s[1..] == s[1..];
  }

  /** A sequence without repetition has as many elements as its set. */
  lemma {:induction false} DistinctSize<T>(s: seq<T>, all: set<T>)
    requires Distinct(s) && forall x | x in s :: x in all
    ensures |s| <= |all|
    ensures (forall x | x in all :: x in s) ==> |s| == |all|
  {
    if s == [] {
      if all != {} {
        var x :| x in all;
        assert x !in s;
      }
    } else {
      DistinctTail(s);
      DistinctSize(s[1..], all - {s[0]});
    }
  }
}

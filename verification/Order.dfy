/** Strings in ascending order. */
module Order {
  import opened Seqs

  /** The order of strings. */
  predicate Before(a: string, b: string) {
    b != "" && (a == "" || a[0] < b[0] || (a[0] == b[0] && Before(a[1..], b[1..])))
  }

  lemma {:induction false} BeforeOrders(a: string, b: string, c: string)
    ensures Before(a, b) ==> !Before(b, a)
    ensures !Before(b, a) && !Before(c, b) ==> !Before(c, a)
  {
    if a != "" && b != "" && c != "" {
      BeforeOrders(a[1..], b[1..], c[1..]);
    } else if a != "" && b != "" {
      BeforeOrders(a[1..], b[1..], "");
    }
  }

  ghost predicate LeastOf(keys: seq<string>, i: nat, j: nat)
    requires i < |keys|
  {
    forall k | i < k < j && k < |keys| :: !Before(keys[k], keys[i])
  }

  ghost predicate InOrder(keys: seq<string>, i: nat) {
    forall a, b | 0 <= a < i && a < b < |keys| :: !Before(keys[b], keys[a])
  }

  /** Two keys changed places. */
  function Swapped(keys: seq<string>, i: nat, j: nat): seq<string>
    requires i < j < |keys|
  {
    keys[i := keys[j]][j := keys[i]]
  }

  lemma SwapLeast(keys: seq<string>, i: nat, j: nat)
    requires i < j < |keys| && LeastOf(keys, i, j) && Before(keys[j], keys[i])
    ensures LeastOf(Swapped(keys, i, j), i, j + 1)
  {
    forall k | i < k < j + 1
      ensures !Before(Swapped(keys, i, j)[k], keys[j])
    {
      if k < j {
        BeforeOrders(keys[j], keys[i], keys[k]);
        BeforeOrders(keys[j], keys[i], keys[i]);
      } else {
        BeforeOrders(keys[j], keys[i], keys[i]);
      }
    }
  }

  lemma SwapInOrder(keys: seq<string>, i: nat, j: nat)
    requires i < j < |keys| && InOrder(keys, i)
    ensures InOrder(Swapped(keys, i, j), i) && multiset(Swapped(keys, i, j)) == multiset(keys)
  {
  }

  ghost predicate Sorted(keys: seq<string>) {
    InOrder(keys, |keys|)
  }

  /** sort.Strings. */
  method SortStrings(keys0: seq<string>) returns (keys: seq<string>)
    ensures multiset(keys) == multiset(keys0) && |keys| == |keys0| && Sorted(keys)
  {
    hide Before, InOrder, LeastOf, Swapped;
    keys := keys0;
    OrderStart(keys);
    for i := 0 to |keys|
      invariant |keys| == |keys0| && multiset(keys) == multiset(keys0) && InOrder(keys, i)
    {
      keys := LeastFirst(keys, i);
      OrderNext(keys, i);
    }
  }

  /** The elements of a set, sorted. */
  method SortedSet(all: set<string>) returns (keys: seq<string>)
    ensures Lists(keys, all) && Sorted(keys)
  {
    hide Sorted;
    var some := [];
    var todo := all;
    while todo != {}
      invariant todo <= all && Lists(some, all - todo)
      decreases todo
    {
      var k :| k in todo;
      some := some + [k];
      todo := todo - {k};
    }
    keys := SortStrings(some);
    SameListing(some, keys, all);
  }

  lemma OrderStart(keys: seq<string>)
    ensures InOrder(keys, 0)
  {
  }

  lemma OrderNext(keys: seq<string>, i: nat)
    requires i < |keys| && InOrder(keys, i) && LeastOf(keys, i, |keys|)
    ensures InOrder(keys, i + 1)
  {
    hide Before;
  }

  method LeastFirst(keys0: seq<string>, i: nat) returns (keys: seq<string>)
    requires i < |keys0| && InOrder(keys0, i)
    ensures |keys| == |keys0| && multiset(keys) == multiset(keys0) && InOrder(keys, i) && LeastOf(keys, i, |keys|)
  {
    hide Before, InOrder;
    keys := keys0;
    for j := i + 1 to |keys|
      invariant |keys| == |keys0| && multiset(keys) == multiset(keys0) && InOrder(keys, i) && LeastOf(keys, i, j)
    {
      if Before(keys[j], keys[i]) {
        SwapLeast(keys, i, j);
        SwapInOrder(keys, i, j);
        keys := keys[i := keys[j]][j := keys[i]];
      }
    }
  }

  lemma SameListing(a: seq<string>, b: seq<string>, all: set<string>)
    requires Lists(a, all) && multiset(a) == multiset(b) && |a| == |b|
    ensures Lists(b, all)
  {
    forall x
      ensures x in b <==> x in all
    {
      assert x in b <==> x in multiset(b);
      assert x in a <==> x in multiset(a);
    }
    forall i, j | 0 <= i < j < |b|
      ensures b[i] != b[j]
    {
      if b[i] == b[j] {
        TwiceInMultiset(b, i, j);
        OnceInMultiset(a, b[i]);
      }
    }
  }

  lemma TwiceInMultiset(s: seq<string>, i: nat, j: nat)
    requires i < j < |s| && s[i] == s[j]
    ensures multiset(s)[s[i]] >= 2
  {
    assert s == s[..i] + [s[i]] + s[i + 1..j] + [s[j]] + s[j + 1..];
  }

  lemma {:induction false} OnceInMultiset(s: seq<string>, x: string)
    requires Distinct(s)
    ensures multiset(s)[x] <= 1
  {
    if s != [] {
      DistinctTail(s);
      OnceInMultiset(s[1..], x);
      assert s == [s[0]] + s[1..];
      assert multiset(s) == multiset{s[0]} + multiset(s[1..]);
      if x == s[0] {
        assert x !in multiset(s[1..]);
      }
    }
  }
}

/** Putting the elements of a multiset in some order. */
module Bags {

  lemma {:induction false} ListOf<T(!new)>(bag: multiset<T>) returns (s: seq<T>)
    ensures multiset(s) == bag
    decreases |bag|
  {
    s := [];
    if |bag| > 0 {
      var x :| x in bag;
      var rest := ListOf(bag - multiset{x});
      s := rest + [x];
      assert multiset(s) == multiset(rest) + multiset{x} == bag;
    }
  }

  /** Those that are picked, and the others. */
  lemma {:induction false} Sift<T(!new)>(s: seq<T>, pick: T -> bool) returns (picked: seq<T>, others: seq<T>)
    ensures multiset(picked) + multiset(others) == multiset(s)
    ensures forall i :: 0 <= i < |picked| ==> pick(picked[i])
    ensures forall i :: 0 <= i < |others| ==> !pick(others[i])
  {
    picked, others := [], [];
    if s != [] {
      var front, x := s[..|s| - 1], s[|s| - 1];
      assert s == front + [x];
      picked, others := Sift(front, pick);
      if pick(x) {
        picked := picked + [x];
      } else {
        others := others + [x];
      }
    }
  }

  lemma SiftedFrom<T(!new)>(bag: multiset<T>, picked: seq<T>, others: seq<T>)
    requires multiset(picked) + multiset(others) == bag
    ensures forall x :: x in picked || x in others ==> x in bag
  {
    forall x | x in picked || x in others ensures x in bag {
      assert multiset(picked)[x] > 0 || multiset(others)[x] > 0;
    }
  }

  /** Everything beside a and b, sifted. */
  lemma Apart<T(!new)>(bag: multiset<T>, a: T, b: T, pick: T -> bool) returns (picked: seq<T>, others: seq<T>)
    requires a in bag && b in bag && a != b
    ensures multiset(picked) + multiset{a} + multiset{b} + multiset(others) == bag
    ensures forall x :: x in picked ==> x in bag && pick(x)
    ensures forall x :: x in others ==> x in bag && !pick(x)
  {
    var rest := bag - multiset{a} - multiset{b};
    var listed := ListOf(rest);
    picked, others := Sift(listed, pick);
    SiftedFrom(rest, picked, others);
    assert bag == rest + multiset{a} + multiset{b};
  }
}

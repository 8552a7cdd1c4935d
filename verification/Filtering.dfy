/** Keeping the elements of a sequence that pass a test, in order. */
module Filtering {
  import Sorting

  function Filter<T>(s: seq<T>, p: T -> bool): seq<T> {
    if s == [] then []
    else Filter(s[..|s| - 1], p) + if p(s[|s| - 1]) then [s[|s| - 1]] else []
  }

  lemma FilterAppend<T>(s: seq<T>, x: T, p: T -> bool)
    ensures Filter(s + [x], p) == Filter(s, p) + if p(x) then [x] else []
  {
    assert (s + [x])[..|s|] == s;
  }

  lemma {:induction false} FilterMembers<T(!new)>(s: seq<T>, p: T -> bool)
    ensures forall x :: x in Filter(s, p) <==> x in s && p(x)
  {
    if s != [] {
      FilterMembers(s[..|s| - 1], p);
      assert s == s[..|s| - 1] + [s[|s| - 1]];
    }
  }

  lemma {:induction false} FilterSorted<T(!new)>(less: (T, T) -> bool, s: seq<T>, p: T -> bool)
    requires Sorting.Sorted(less, s)
    ensures Sorting.Sorted(less, Filter(s, p))
  {
    if s != [] {
      var front := s[..|s| - 1];
      FilterSorted(less, front, p);
      FilterMembers(front, p);
      var f := Filter(front, p);
      forall i | 0 <= i < |f| ensures less(f[i], s[|s| - 1]) {
        assert f[i] in f && f[i] in front;
        var j :| 0 <= j < |front| && front[j] == f[i];
        assert s[j] == front[j];
      }
    }
  }

  lemma {:induction false} FilterSame<T(!new)>(s: seq<T>, p: T -> bool, q: T -> bool)
    requires forall x :: x in s ==> p(x) == q(x)
    ensures Filter(s, p) == Filter(s, q)
  {
    if s != [] {
      assert s == s[..|s| - 1] + [s[|s| - 1]];
      FilterSame(s[..|s| - 1], p, q);
    }
  }

  lemma {:induction false} FilterTwice<T(!new)>(s: seq<T>, p: T -> bool, q: T -> bool, both: T -> bool)
    requires forall x :: x in s ==> (both(x) <==> p(x) && q(x))
    ensures Filter(Filter(s, p), q) == Filter(s, both)
  {
    if s != [] {
      var front, x := s[..|s| - 1], s[|s| - 1];
      assert s == front + [x];
      FilterTwice(front, p, q, both);
      FilterAppend(Filter(front, p), x, q);
      assert Filter(front, p) + [] == Filter(front, p);
    }
  }

  // ---------- a partition by labels ----------

  function Labelled<T>(tag: T -> string, l: string): T -> bool {
    (x: T) => tag(x) == l
  }

  /** The elements carrying one of the labels, counted tag by tag. */
  function TotalFor<T>(s: seq<T>, tag: T -> string, ls: seq<string>): nat {
    if ls == [] then 0
    else TotalFor(s, tag, ls[..|ls| - 1]) + |Filter(s, Labelled(tag, ls[|ls| - 1]))|
  }

  lemma {:induction false} TotalAppend<T(!new)>(s: seq<T>, x: T, tag: T -> string, ls: seq<string>)
    requires forall i, j :: 0 <= i < j < |ls| ==> ls[i] != ls[j]
    ensures TotalFor(s + [x], tag, ls) == TotalFor(s, tag, ls) + if tag(x) in ls then 1 else 0
  {
    if ls != [] {
      var front, l := ls[..|ls| - 1], ls[|ls| - 1];
      TotalAppend(s, x, tag, front);
      FilterAppend(s, x, Labelled(tag, l));
      assert ls == front + [l];
      assert l !in front;
    }
  }

  lemma {:induction false} TotalOfNothing<T(!new)>(tag: T -> string, ls: seq<string>)
    ensures TotalFor([], tag, ls) == 0
  {
    if ls != [] { TotalOfNothing(tag, ls[..|ls| - 1]); }
  }

  /** Distinct labels that cover every element count each element once. */
  lemma {:induction false} Partition<T(!new)>(s: seq<T>, tag: T -> string, ls: seq<string>)
    requires forall i, j :: 0 <= i < j < |ls| ==> ls[i] != ls[j]
    requires forall x :: x in s ==> tag(x) in ls
    ensures TotalFor(s, tag, ls) == |s|
  {
    if s == [] {
      TotalOfNothing(tag, ls);
    } else {
      var front, x := s[..|s| - 1], s[|s| - 1];
      assert s == front + [x];
      Partition(front, tag, ls);
      TotalAppend(front, x, tag, ls);
    }
  }
}

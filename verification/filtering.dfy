/**
 * Order-preserving filtering of sequences, the list arithmetic behind the
 * broker pool (drop the "no broker" id) and the unused-broker list (drop the
 * brokers a partition already uses).
 */
module Filtering {

  /** No element occurs twice. */
  predicate NoDup<T(==)>(s: seq<T>)
  {
    forall i, j :: 0 <= i < j < |s| ==> s[i] != s[j]
  }

  /** The elements of `s` as a set. */
  function Elems<T>(s: seq<T>): set<T>
  {
    set x | x in s
  }

  /**
   * `s` with every element of `excluded` dropped and the survivors kept in
   * their order. Defined from the end, the way an append loop builds it.
   */
  function Without<T(==)>(s: seq<T>, excluded: set<T>): seq<T>
  {
    if s == [] then []
    else
      var rest := Without(s[..|s| - 1], excluded);
      if s[|s| - 1] in excluded then rest else rest + [s[|s| - 1]]
  }

  /** One step of the append loop: the filter of a prefix extended by one element. */
  lemma WithoutSnoc<T>(s: seq<T>, i: nat, excluded: set<T>)
    requires i < |s|
    ensures Without(s[..i + 1], excluded)
            == Without(s[..i], excluded) + (if s[i] in excluded then [] else [s[i]])
  {
    assert s[..i + 1][..i] == s[..i];
  }

  /** Exactly the elements of `s` outside `excluded` survive. */
  lemma {:induction false} WithoutMembers<T>(s: seq<T>, excluded: set<T>, x: T)
    ensures x in Without(s, excluded) <==> x in s && x !in excluded
  {
    if s != [] {
      var init := s[..|s| - 1];
      WithoutMembers(init, excluded, x);
      assert s == init + [s[|s| - 1]];
    }
  }

  /** Filtering distributes over concatenation: the survivors keep their relative order. */
  lemma {:induction false} WithoutAppend<T>(s: seq<T>, t: seq<T>, excluded: set<T>)
    ensures Without(s + t, excluded) == Without(s, excluded) + Without(t, excluded)
    decreases |t|
  {
    if t == [] {
      assert s + t == s;
    } else {
      var tInit := t[..|t| - 1];
      assert (s + t)[..|s + t| - 1] == s + tInit;
      WithoutAppend(s, tInit, excluded);
    }
  }

  /** Filtering never introduces a duplicate. */
  lemma {:induction false} WithoutNoDup<T>(s: seq<T>, excluded: set<T>)
    requires NoDup(s)
    ensures NoDup(Without(s, excluded))
  {
    if s != [] {
      var init := s[..|s| - 1];
      var last := s[|s| - 1];
      assert NoDup(init);
      WithoutNoDup(init, excluded);
      WithoutMembers(init, excluded, last);
      assert last !in init;
    }
  }

  /** The elements of a non-empty sequence: those of its prefix and its last one. */
  lemma ElemsSnoc<T>(s: seq<T>)
    requires s != []
    ensures Elems(s) == Elems(s[..|s| - 1]) + {s[|s| - 1]}
  {
  }

  /** Dropping the last element keeps a sequence duplicate-free, and the last element is not in the rest. */
  lemma NoDupInit<T>(s: seq<T>)
    requires NoDup(s) && s != []
    ensures NoDup(s[..|s| - 1]) && s[|s| - 1] !in s[..|s| - 1]
  {
  }

  /** Without duplicates, filtering removes exactly the excluded elements that occur. */
  lemma {:induction false} WithoutLength<T>(s: seq<T>, excluded: set<T>)
    requires NoDup(s)
    ensures |Without(s, excluded)| == |s| - |excluded * Elems(s)|
  {
    if s != [] {
      var init, last := s[..|s| - 1], s[|s| - 1];
      NoDupInit(s);
      ElemsSnoc(s);
      WithoutLength(init, excluded);
      var before := excluded * Elems(init);
      assert last !in before;
      if last in excluded {
        assert excluded * Elems(s) == before + {last};
      } else {
        assert excluded * Elems(s) == before;
      }
    }
  }

  /** A sequence has at most as many distinct elements as entries, and exactly as many without duplicates. */
  lemma {:induction false} ElemsCard<T>(s: seq<T>)
    ensures |Elems(s)| <= |s|
    ensures NoDup(s) ==> |Elems(s)| == |s|
  {
    if s != [] {
      var init, last := s[..|s| - 1], s[|s| - 1];
      ElemsCard(init);
      ElemsSnoc(s);
      if NoDup(s) {
        NoDupInit(s);
        assert NoDup(init);
      }
    }
  }

  /**
   * Whatever `used` holds, filtering a duplicate-free `s` by it leaves at
   * least `|s| - |used|` elements.
   */
  lemma WithoutLowerBound<T>(s: seq<T>, used: seq<T>)
    requires NoDup(s)
    ensures |Without(s, Elems(used))| >= |s| - |used|
  {
    WithoutLength(s, Elems(used));
    ElemsCard(used);
    var common, u := Elems(used) * Elems(s), Elems(used);
    assert u == common + (u - common);
    assert common * (u - common) == {};
  }

  /** A duplicate-free sequence holds each value at most once. */
  lemma {:induction false} NoDupMultiplicity<T>(s: seq<T>, x: T)
    requires NoDup(s)
    ensures multiset(s)[x] <= 1
  {
    if s != [] {
      var init := s[..|s| - 1];
      assert s == init + [s[|s| - 1]];
      assert NoDup(init);
      NoDupMultiplicity(init, x);
      if x == s[|s| - 1] {
        assert x !in init;
      }
    }
  }

  /**
   * A selection drawn without replacement (a sub-multiset) from a
   * duplicate-free sequence is duplicate-free and drawn from its elements.
   */
  lemma SubMultisetNoDup<T>(t: seq<T>, s: seq<T>)
    requires NoDup(s)
    requires multiset(t) <= multiset(s)
    ensures NoDup(t)
    ensures forall x :: x in t ==> x in s
  {
    forall x | x in t
      ensures x in s
    {
      assert x in multiset(t);
    }
    forall i, j | 0 <= i < j < |t|
      ensures t[i] != t[j]
    {
      if t[i] == t[j] {
        var x := t[i];
        assert t == t[..i] + [x] + t[i + 1..j] + [x] + t[j + 1..];
        assert multiset(t)[x] >= 2;
        NoDupMultiplicity(s, x);
        assert false;
      }
    }
  }
}

/** Sequences used as Python sets and as deduplicated lists (`if x not in xs: xs.append(x)`). */
module Seqs {

  predicate NoDup<T(==)>(s: seq<T>)
  {
    forall i, j :: 0 <= i < j < |s| ==> s[i] != s[j]
  }

  /** `if x not in s: s.append(x)` */
  function AddUnique<T(==)>(s: seq<T>, x: T): (r: seq<T>)
    ensures NoDup(s) ==> NoDup(r)
    ensures x in r && forall k :: 0 <= k < |r| ==> r[k] in s || r[k] == x
    ensures |s| <= |r| <= |s| + 1 && r[..|s|] == s
  {
    if x in s then s else s + [x]
  }

  /** Adding each element of `xs` in turn. */
  function AddAllUnique<T(==)>(s: seq<T>, xs: seq<T>): (r: seq<T>)
  {
    if xs == [] then s else AddUnique(AddAllUnique(s, xs[..|xs| - 1]), xs[|xs| - 1])
  }

  /** Deduplicated adding keeps the list free of repeats and holds exactly the elements offered. */
  lemma {:induction false} AddAllUniqueContents<T>(s: seq<T>, xs: seq<T>)
    requires NoDup(s)
    ensures NoDup(AddAllUnique(s, xs))
    ensures forall z :: z in AddAllUnique(s, xs) <==> z in s || z in xs
    ensures |s| <= |AddAllUnique(s, xs)| && AddAllUnique(s, xs)[..|s|] == s
  {
    if xs != [] {
      var init := xs[..|xs| - 1];
      AddAllUniqueContents(s, init);
      assert xs == init + [xs[|xs| - 1]];
      var r := AddAllUnique(s, init);
      assert r[..|s|] == s;
      assert AddUnique(r, xs[|xs| - 1])[..|r|] == r;
      assert AddUnique(r, xs[|xs| - 1])[..|s|] == r[..|s|];
    }
  }

  lemma AddAllUniqueSnoc<T>(s: seq<T>, xs: seq<T>, x: T)
    ensures AddAllUnique(s, xs + [x]) == AddUnique(AddAllUnique(s, xs), x)
  {
    assert (xs + [x])[..|xs|] == xs;
  }

  /** Adding `xs` then `ys` is adding `xs + ys`. */
  lemma {:induction false} AddAllUniqueAppend<T>(s: seq<T>, xs: seq<T>, ys: seq<T>)
    ensures AddAllUnique(s, xs + ys) == AddAllUnique(AddAllUnique(s, xs), ys)
    decreases |ys|
  {
    if ys == [] {
      assert xs + ys == xs;
    } else {
      var init := ys[..|ys| - 1];
      AddAllUniqueAppend(s, xs, init);
      assert (xs + ys)[..|xs + ys| - 1] == xs + init;
    }
  }

  /** In a list without repeats every element occurs once. */
  lemma {:induction false} NoDupCount<T>(s: seq<T>, x: T)
    requires NoDup(s)
    ensures multiset(s)[x] == if x in s then 1 else 0
    decreases |s|
  {
    if s != [] {
      var init := s[..|s| - 1];
      assert s == init + [s[|s| - 1]];
      assert NoDup(init);
      NoDupCount(init, x);
      if x == s[|s| - 1] {
        assert x !in init;
      }
    }
  }

  /** Two lists without repeats holding the same elements are permutations of each other. */
  lemma SameElementsPermutation<T>(a: seq<T>, b: seq<T>)
    requires NoDup(a) && NoDup(b)
    requires forall z :: z in a <==> z in b
    ensures multiset(a) == multiset(b)
  {
    forall x: T
      ensures multiset(a)[x] == multiset(b)[x]
    {
      NoDupCount(a, x);
      NoDupCount(b, x);
    }
  }

  /** Adding elements that are all present already changes nothing. */
  lemma {:induction false} AddAllUniquePresent<T>(s: seq<T>, xs: seq<T>)
    requires forall x :: x in xs ==> x in s
    ensures AddAllUnique(s, xs) == s
    decreases |xs|
  {
    if xs != [] {
      var init := xs[..|xs| - 1];
      forall x | x in init ensures x in s { assert x in xs; }
      AddAllUniquePresent(s, init);
    }
  }

  /** Every element offered ends up in the list. */
  lemma AddAllUniqueMembers<T>(s: seq<T>, xs: seq<T>)
    ensures forall x :: x in xs ==> x in AddAllUnique(s, xs)
  {
    AddAllUniqueMembersFrom(s, xs);
  }

  lemma {:induction false} AddAllUniqueMembersFrom<T>(s: seq<T>, xs: seq<T>)
    ensures forall x :: x in s || x in xs ==> x in AddAllUnique(s, xs)
    decreases |xs|
  {
    if xs != [] {
      var init := xs[..|xs| - 1];
      AddAllUniqueMembersFrom(s, init);
      forall x | x in xs && x != xs[|xs| - 1] ensures x in init {
        var k :| 0 <= k < |xs| && xs[k] == x;
        assert init[k] == x;
      }
    }
  }

  /** `[f(x) for x in xs]`. */
  function Map<A, B>(f: A -> B, xs: seq<A>): (r: seq<B>)
    ensures |r| == |xs|
    decreases |xs|
  {
    if xs == [] then [] else Map(f, xs[..|xs| - 1]) + [f(xs[|xs| - 1])]
  }

  lemma {:induction false} MapAt<A, B>(f: A -> B, xs: seq<A>)
    ensures forall k :: 0 <= k < |xs| ==> Map(f, xs)[k] == f(xs[k])
    decreases |xs|
  {
    if xs != [] {
      MapAt(f, xs[..|xs| - 1]);
    }
  }

  lemma {:induction false} MapAppend<A, B>(f: A -> B, xs: seq<A>, ys: seq<A>)
    ensures Map(f, xs + ys) == Map(f, xs) + Map(f, ys)
    decreases |ys|
  {
    if ys == [] {
      assert xs + ys == xs;
    } else {
      var init := ys[..|ys| - 1];
      MapAppend(f, xs, init);
      assert (xs + ys)[..|xs + ys| - 1] == xs + init;
    }
  }

  /** Appending the images of `xs`, then of `ys`, is appending the images of `xs + ys`. */
  lemma AppendMapped<A, B>(s: seq<B>, f: A -> B, xs: seq<A>, ys: seq<A>)
    ensures s + Map(f, xs) + Map(f, ys) == s + Map(f, xs + ys)
  {
    MapAppend(f, xs, ys);
  }

  /** Appending the images of `xs`, then `f(x)`, is appending the images of `xs + [x]`. */
  lemma AppendMappedSnoc<A, B>(s: seq<B>, f: A -> B, xs: seq<A>, x: A)
    ensures s + Map(f, xs) + [f(x)] == s + Map(f, xs + [x])
  {
    assert (xs + [x])[..|xs|] == xs;
  }

  /** Adding the images of `xs + [x]` is adding those of `xs`, then `f(x)`. */
  lemma AddMappedSnoc<A, B>(s: seq<B>, f: A -> B, xs: seq<A>, x: A)
    ensures AddAllUnique(s, Map(f, xs + [x])) == AddUnique(AddAllUnique(s, Map(f, xs)), f(x))
  {
    assert (xs + [x])[..|xs|] == xs;
    AddAllUniqueSnoc(s, Map(f, xs), f(x));
  }
}

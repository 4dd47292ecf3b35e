/**
 * Python's string operations that the model needs: comparison (code-point
 * lexicographic order, as `<` on `str`), `sorted`, `"\n".join`,
 * `str.endswith` and the substring test `sub in s`.
 */
module Text {

  /** `a <= b` on Python strings: lexicographic by code point. */
  predicate LessEq(a: string, b: string)
  {
    a == [] || (b != [] && (a[0] < b[0] || (a[0] == b[0] && LessEq(a[1..], b[1..]))))
  }

  lemma {:induction false} LessEqRefl(a: string)
    ensures LessEq(a, a)
  {
    if a != [] {
      LessEqRefl(a[1..]);
    }
  }

  lemma {:induction false} LessEqTotal(a: string, b: string)
    ensures LessEq(a, b) || LessEq(b, a)
  {
    if a != [] && b != [] && a[0] == b[0] {
      LessEqTotal(a[1..], b[1..]);
    }
  }

  lemma {:induction false} LessEqTrans(a: string, b: string, c: string)
    requires LessEq(a, b) && LessEq(b, c)
    ensures LessEq(a, c)
  {
    if a != [] && b != [] && c != [] && a[0] == b[0] && b[0] == c[0] {
      LessEqTrans(a[1..], b[1..], c[1..]);
    }
  }

  lemma {:induction false} LessEqAntisym(a: string, b: string)
    requires LessEq(a, b) && LessEq(b, a)
    ensures a == b
  {
    if a != [] && b != [] {
      LessEqAntisym(a[1..], b[1..]);
    }
  }

  /** The identity key, so that `sorted(xs)` is `SortBy(xs, Id)`. */
  function Id(s: string): string { s }

  predicate SortedBy<T>(s: seq<T>, key: T -> string)
  {
    forall i, j :: 0 <= i < j < |s| ==> LessEq(key(s[i]), key(s[j]))
  }

  /** Inserts `x` after every element whose key is not above `x`'s, so equal keys keep their order. */
  function InsertBy<T>(x: T, s: seq<T>, key: T -> string): (r: seq<T>)
    ensures multiset(r) == multiset(s) + multiset{x}
    ensures |r| == |s| + 1
  {
    if s == [] then [x]
    else if LessEq(key(s[0]), key(x)) then
      assert s == [s[0]] + s[1..];
      [s[0]] + InsertBy(x, s[1..], key)
    else [x] + s
  }

  /** Python's `sorted(s, key=key)`: a stable sort, written as insertion sort. */
  function SortBy<T>(s: seq<T>, key: T -> string): (r: seq<T>)
    ensures multiset(r) == multiset(s)
    ensures |r| == |s|
  {
    if s == [] then []
    else
      assert s == s[..|s| - 1] + [s[|s| - 1]];
      InsertBy(s[|s| - 1], SortBy(s[..|s| - 1], key), key)
  }

  /** Every key of the insertion result is at least `lo` when every key going in is. */
  lemma {:induction false} InsertByAbove<T>(x: T, s: seq<T>, key: T -> string, lo: string)
    requires LessEq(lo, key(x)) && forall k :: 0 <= k < |s| ==> LessEq(lo, key(s[k]))
    ensures forall j :: 0 <= j < |InsertBy(x, s, key)| ==> LessEq(lo, key(InsertBy(x, s, key)[j]))
  {
    if s != [] && LessEq(key(s[0]), key(x)) {
      InsertByAbove(x, s[1..], key, lo);
      assert InsertBy(x, s, key) == [s[0]] + InsertBy(x, s[1..], key);
    }
  }

  lemma {:induction false} InsertBySorted<T>(x: T, s: seq<T>, key: T -> string)
    requires SortedBy(s, key)
    ensures SortedBy(InsertBy(x, s, key), key)
  {
    if s != [] && LessEq(key(s[0]), key(x)) {
      var rest := InsertBy(x, s[1..], key);
      InsertBySorted(x, s[1..], key);
      InsertByAbove(x, s[1..], key, key(s[0]));
      assert InsertBy(x, s, key) == [s[0]] + rest;
    } else if s != [] {
      LessEqTotal(key(s[0]), key(x));
      forall j | 1 <= j < |s| + 1
        ensures LessEq(key(x), key(([x] + s)[j]))
      {
        if j > 1 {
          LessEqTrans(key(x), key(s[0]), key(s[j - 1]));
        }
      }
    }
  }

  lemma {:induction false} SortByIsSorted<T>(s: seq<T>, key: T -> string)
    ensures SortedBy(SortBy(s, key), key)
  {
    if s != [] {
      SortByIsSorted(s[..|s| - 1], key);
      InsertBySorted(s[|s| - 1], SortBy(s[..|s| - 1], key), key);
    }
  }

  /**
   * Two sorted orderings of the same strings are the same sequence, so the
   * output of `sorted` does not depend on the order its input was built in.
   */
  lemma {:induction false} SortedUnique(a: seq<string>, b: seq<string>)
    requires SortedBy(a, Id) && SortedBy(b, Id)
    requires multiset(a) == multiset(b)
    ensures a == b
  {
    if a != [] {
      assert b != [] by { assert a[0] in multiset(a); }
      assert a[0] == b[0] by {
        assert a[0] in multiset(a);
        assert b[0] in multiset(b);
        SortedHeadLeast(a, b[0]);
        SortedHeadLeast(b, a[0]);
        LessEqAntisym(a[0], b[0]);
      }
      assert multiset(a[1..]) == multiset(b[1..]) by {
        MultisetTail(a);
        MultisetTail(b);
      }
      assert SortedBy(a[1..], Id) && SortedBy(b[1..], Id) by {
        SortedTail(a, Id);
        SortedTail(b, Id);
      }
      SortedUnique(a[1..], b[1..]);
      assert a == [a[0]] + a[1..] && b == [b[0]] + b[1..];
    }
  }

  /** The first string of a sorted list is the least of them. */
  lemma SortedHeadLeast(a: seq<string>, x: string)
    requires SortedBy(a, Id) && x in multiset(a)
    ensures LessEq(a[0], x)
  {
    var i :| 0 <= i < |a| && a[i] == x;
    if i > 0 {
      assert Id(a[0]) == a[0] && Id(a[i]) == a[i];
    } else {
      LessEqRefl(a[0]);
    }
  }

  lemma SortedTail<T>(a: seq<T>, key: T -> string)
    requires a != [] && SortedBy(a, key)
    ensures SortedBy(a[1..], key)
  {
    forall i, j | 0 <= i < j < |a[1..]| ensures LessEq(key(a[1..][i]), key(a[1..][j])) {
      assert a[1..][i] == a[i + 1] && a[1..][j] == a[j + 1];
    }
  }

  lemma MultisetTail<T>(a: seq<T>)
    requires a != []
    ensures multiset(a[1..]) == multiset(a) - multiset{a[0]}
  {
    assert a == [a[0]] + a[1..];
  }

  /** `sorted` gives the same list for any two orderings of the same strings. */
  lemma SortIgnoresOrder(a: seq<string>, b: seq<string>)
    requires multiset(a) == multiset(b)
    ensures SortBy(a, Id) == SortBy(b, Id)
  {
    SortByIsSorted(a, Id);
    SortByIsSorted(b, Id);
    SortedUnique(SortBy(a, Id), SortBy(b, Id));
  }

  /** `sep.join(lines)`. */
  function Join(sep: string, lines: seq<string>): string
  {
    if lines == [] then ""
    else if |lines| == 1 then lines[0]
    else lines[0] + sep + Join(sep, lines[1..])
  }

  /** `s.endswith(suffix)`. */
  predicate EndsWith(s: string, suffix: string)
  {
    |suffix| <= |s| && s[|s| - |suffix|..] == suffix
  }

  /** `sub in s` for strings. */
  predicate HasSubstring(s: string, sub: string)
  {
    |sub| <= |s| && (s[..|sub|] == sub || HasSubstring(s[1..], sub))
  }
}

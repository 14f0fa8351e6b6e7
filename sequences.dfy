/** Facts about sequences that the frame operations rely on: order-preserving
    selection (subsequences), duplicate-free sequences and selection by a predicate. */
module Sequences {

  /** `a` is obtained from `b` by deleting elements; what is kept stays in order. */
  predicate Subsequence<T(==)>(a: seq<T>, b: seq<T>)
    decreases |b|
  {
    |a| == 0 ||
    (|b| > 0 && ((a[0] == b[0] && Subsequence(a[1..], b[1..])) || Subsequence(a, b[1..])))
  }

  predicate NoDuplicates<T(==)>(s: seq<T>) {
    forall i, j | 0 <= i < j < |s| :: s[i] != s[j]
  }

  lemma {:induction false} SubsequenceRefl<T>(s: seq<T>)
    ensures Subsequence(s, s)
    decreases |s|
  {
    if |s| > 0 {
      SubsequenceRefl(s[1..]);
    }
  }

  /** A subsequence is no longer than the sequence and draws its elements from it. */
  lemma {:induction false} SubsequenceElements<T>(a: seq<T>, b: seq<T>)
    requires Subsequence(a, b)
    ensures |a| <= |b|
    ensures forall x | x in a :: x in b
    decreases |b|
  {
    if |a| > 0 {
      if a[0] == b[0] && Subsequence(a[1..], b[1..]) {
        SubsequenceElements(a[1..], b[1..]);
        assert a == [a[0]] + a[1..];
        assert b == [b[0]] + b[1..];
      } else {
        SubsequenceElements(a, b[1..]);
        assert b == [b[0]] + b[1..];
      }
    }
  }

  lemma {:induction false} SubsequenceTrans<T>(a: seq<T>, b: seq<T>, c: seq<T>)
    requires Subsequence(a, b) && Subsequence(b, c)
    ensures Subsequence(a, c)
    decreases |c|
  {
    if |a| > 0 {
      if b[0] == c[0] && Subsequence(b[1..], c[1..]) {
        if a[0] == b[0] && Subsequence(a[1..], b[1..]) {
          SubsequenceTrans(a[1..], b[1..], c[1..]);
        } else {
          SubsequenceTrans(a, b[1..], c[1..]);
        }
      } else {
        SubsequenceTrans(a, b, c[1..]);
      }
    }
  }

  /** Appending the same element to both sides keeps the relation. */
  lemma {:induction false} SubsequenceSnoc<T>(a: seq<T>, b: seq<T>, x: T)
    requires Subsequence(a, b)
    ensures Subsequence(a + [x], b + [x])
    decreases |b|
  {
    if |a| == 0 {
      SubsequenceEmptyPrefix(b, x);
      assert a + [x] == [x];
    } else if a[0] == b[0] && Subsequence(a[1..], b[1..]) {
      SubsequenceSnoc(a[1..], b[1..], x);
      assert (a + [x])[1..] == a[1..] + [x];
      assert (b + [x])[1..] == b[1..] + [x];
    } else {
      SubsequenceSnoc(a, b[1..], x);
      assert (b + [x])[1..] == b[1..] + [x];
    }
  }

  lemma {:induction false} SubsequenceEmptyPrefix<T>(b: seq<T>, x: T)
    ensures Subsequence([x], b + [x])
    decreases |b|
  {
    if |b| > 0 {
      SubsequenceEmptyPrefix(b[1..], x);
      assert (b + [x])[1..] == b[1..] + [x];
    } else {
      var single: seq<T> := [x];
      assert single[1..] == [];
    }
  }

  /** A subsequence of the original sequence with one element appended. */
  lemma {:induction false} SubsequenceExtend<T>(a: seq<T>, b: seq<T>, x: T)
    requires Subsequence(a, b)
    ensures Subsequence(a, b + [x])
    decreases |b|
  {
    if |a| > 0 {
      if a[0] == b[0] && Subsequence(a[1..], b[1..]) {
        SubsequenceExtend(a[1..], b[1..], x);
      } else {
        SubsequenceExtend(a, b[1..], x);
      }
      assert (b + [x])[1..] == b[1..] + [x];
    }
  }

  /** Selecting elements keeps order, commutes with taking a component of each element. */
  lemma {:induction false} SubsequenceMap<T, U>(a: seq<T>, b: seq<T>, f: T -> U)
    requires Subsequence(a, b)
    ensures Subsequence(Map(a, f), Map(b, f))
    decreases |b|
  {
    if |a| > 0 {
      assert Map(a, f)[1..] == Map(a[1..], f);
      assert Map(b, f)[1..] == Map(b[1..], f);
      if a[0] == b[0] && Subsequence(a[1..], b[1..]) {
        SubsequenceMap(a[1..], b[1..], f);
      } else {
        SubsequenceMap(a, b[1..], f);
      }
    }
  }

  /** Deleting elements from a duplicate-free sequence leaves it duplicate-free. */
  lemma {:induction false} SubsequenceNoDuplicates<T>(a: seq<T>, b: seq<T>)
    requires Subsequence(a, b) && NoDuplicates(b)
    ensures NoDuplicates(a)
    decreases |b|
  {
    if |a| > 0 {
      assert NoDuplicates(b[1..]);
      if a[0] == b[0] && Subsequence(a[1..], b[1..]) {
        SubsequenceNoDuplicates(a[1..], b[1..]);
        SubsequenceElements(a[1..], b[1..]);
        forall i, j | 0 <= i < j < |a|
          ensures a[i] != a[j]
        {
          if i == 0 {
            assert a[j] == a[1..][j - 1];
            assert a[j] in b[1..];
          } else {
            assert a[i] == a[1..][i - 1] && a[j] == a[1..][j - 1];
          }
        }
      } else {
        SubsequenceNoDuplicates(a, b[1..]);
      }
    }
  }

  /** A value found at two different positions is counted at least twice. */
  lemma TwoOccurrences<T>(s: seq<T>, i: nat, j: nat)
    requires i < j < |s| && s[i] == s[j]
    ensures multiset(s)[s[i]] >= 2
  {
    assert s == s[..j] + s[j..];
    assert s[i] == s[..j][i];
    assert s[j] == s[j..][0];
  }

  function Map<T, U>(s: seq<T>, f: T -> U): (r: seq<U>)
    ensures |r| == |s| && forall i | 0 <= i < |s| :: r[i] == f(s[i])
  {
    seq(|s|, i requires 0 <= i < |s| => f(s[i]))
  }

  /** The elements of `s` that satisfy `keep`, in their original order. */
  function Filter<T(==)>(s: seq<T>, keep: T -> bool): (r: seq<T>)
    ensures Subsequence(r, s)
    ensures forall x | x in r :: x in s && keep(x)
    ensures forall x | x in s && keep(x) :: x in r
    decreases |s|
  {
    if |s| == 0 then []
    else
      var rest := Filter(s[1..], keep);
      assert s == [s[0]] + s[1..];
      if keep(s[0]) then
        assert ([s[0]] + rest)[1..] == rest;
        [s[0]] + rest
      else
        rest
  }

  /** Selecting the transformed elements by `keep` is transforming the elements
      selected by `keepBefore`, when `keepBefore` says what `keep` says of the image. */
  lemma {:induction false} FilterMap<T, U>(s: seq<T>, f: T -> U, keep: U -> bool, keepBefore: T -> bool)
    requires forall x | x in s :: keepBefore(x) == keep(f(x))
    ensures Filter(Map(s, f), keep) == Map(Filter(s, keepBefore), f)
    decreases |s|
  {
    if |s| > 0 {
      var mapped := Map(s, f);
      assert mapped[0] == f(s[0]);
      assert mapped[1..] == Map(s[1..], f);
      FilterMap(s[1..], f, keep, keepBefore);
      var rest := Filter(s[1..], keepBefore);
      if keepBefore(s[0]) {
        assert Filter(s, keepBefore) == [s[0]] + rest;
        assert Map([s[0]] + rest, f) == [f(s[0])] + Map(rest, f);
      } else {
        assert Filter(s, keepBefore) == rest;
      }
    }
  }

  /** Filtering with a predicate that holds everywhere changes nothing. */
  lemma {:induction false} FilterAll<T>(s: seq<T>, keep: T -> bool)
    requires forall x | x in s :: keep(x)
    ensures Filter(s, keep) == s
    decreases |s|
  {
    if |s| > 0 {
      assert s == [s[0]] + s[1..];
      FilterAll(s[1..], keep);
    }
  }

  /** The distinct elements of `s`, in the order of their first appearance. */
  function Unique<T(==)>(s: seq<T>): (r: seq<T>)
    ensures NoDuplicates(r)
    ensures forall x | x in r :: x in s
    ensures forall x | x in s :: x in r
    ensures Subsequence(r, s)
    decreases |s|
  {
    if |s| == 0 then []
    else
      var init := s[..|s| - 1];
      var last := s[|s| - 1];
      assert s == init + [last];
      var r := Unique(init);
      if last in r then
        SubsequenceExtend(r, init, last);
        r
      else
        SubsequenceSnoc(r, init, last);
        r + [last]
  }
}

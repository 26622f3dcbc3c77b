/** Facts about sequences shared by the listing and permission models. */
module Seqs {

  /** No element occurs twice: the keys of a map, the entries of a permission table. */
  predicate Distinct<T(==)>(s: seq<T>)
  {
    forall i, j :: 0 <= i < j < |s| ==> s[i] != s[j]
  }

  /** `a` is obtained from `b` by deleting elements, keeping the order of the rest. */
  predicate IsSubsequence<T(==)>(a: seq<T>, b: seq<T>)
    decreases |b|
  {
    a == [] ||
    (b != [] &&
     ((a[0] == b[0] && IsSubsequence(a[1..], b[1..])) || IsSubsequence(a, b[1..])))
  }

  /** Everything in a subsequence comes from the sequence it was taken from. */
  lemma {:induction false} SubsequenceMembers<T>(a: seq<T>, b: seq<T>)
    requires IsSubsequence(a, b)
    ensures forall x :: x in a ==> x in b
    decreases |b|
  {
    if a != [] {
      if a[0] == b[0] && IsSubsequence(a[1..], b[1..]) {
        SubsequenceMembers(a[1..], b[1..]);
        forall x | x in a ensures x in b {
          if x != a[0] { assert x in a[1..]; }
        }
      } else {
        SubsequenceMembers(a, b[1..]);
      }
    }
  }

  /**
   * Within a table without repetitions, a subsequence is determined by its members:
   * two order-preserving selections of the same elements are the same sequence.
   */
  lemma {:induction false} SubsequenceDeterminedByMembers<T>(x: seq<T>, y: seq<T>, b: seq<T>)
    requires Distinct(b)
    requires IsSubsequence(x, b) && IsSubsequence(y, b)
    requires forall e :: e in x <==> e in y
    ensures x == y
    decreases |b|
  {
    EmptyIffNoMembers(x);
    EmptyIffNoMembers(y);
    if x == [] || y == [] {
    } else {
      var h, t := b[0], b[1..];
      assert Distinct(t);
      if h in x {
        HeadOfSubsequence(x, b);
        HeadOfSubsequence(y, b);
        SubsequenceMembers(x[1..], t);
        SubsequenceMembers(y[1..], t);
        forall e ensures e in x[1..] <==> e in y[1..] {
          if e in x[1..] { assert e in t; assert e != h; assert e in x; assert e in y; assert e != y[0]; }
          if e in y[1..] { assert e in t; assert e != h; assert e in y; assert e in x; assert e != x[0]; }
        }
        SubsequenceDeterminedByMembers(x[1..], y[1..], t);
        assert x == [x[0]] + x[1..] && y == [y[0]] + y[1..];
      } else {
        assert x[0] != h && y[0] != h;
        SubsequenceDeterminedByMembers(x, y, t);
      }
    }
  }

  /** If the first element of a repetition-free table is selected, it heads the selection. */
  lemma HeadOfSubsequence<T>(x: seq<T>, b: seq<T>)
    requires Distinct(b) && b != []
    requires IsSubsequence(x, b) && b[0] in x
    ensures x[0] == b[0] && IsSubsequence(x[1..], b[1..])
  {
    TailSelectionExcludesHead(x, b);
  }

  /** A selection from the tail of a repetition-free table never contains its head. */
  lemma TailSelectionExcludesHead<T>(x: seq<T>, b: seq<T>)
    requires Distinct(b) && b != []
    ensures IsSubsequence(x, b[1..]) ==> b[0] !in x
  {
    if IsSubsequence(x, b[1..]) {
      SubsequenceMembers(x, b[1..]);
      HeadNotInTail(b);
    }
  }

  lemma HeadNotInTail<T>(b: seq<T>)
    requires Distinct(b) && b != []
    ensures b[0] !in b[1..]
  {
    forall k | 0 <= k < |b| - 1 ensures b[1..][k] != b[0] {
      assert b[1..][k] == b[k + 1];
    }
  }

  lemma EmptyIffNoMembers<T>(s: seq<T>)
    ensures s == [] <==> forall e :: e !in s
  {
    if s != [] {
      assert s[0] in s;
    }
  }

  /** A subsequence of a repetition-free sequence is itself repetition-free. */
  lemma {:induction false} SubsequenceDistinct<T>(a: seq<T>, b: seq<T>)
    requires Distinct(b) && IsSubsequence(a, b)
    ensures Distinct(a)
    decreases |b|
  {
    if a != [] {
      assert Distinct(b[1..]);
      if a[0] == b[0] && IsSubsequence(a[1..], b[1..]) {
        SubsequenceDistinct(a[1..], b[1..]);
        SubsequenceMembers(a[1..], b[1..]);
        forall i, j | 0 <= i < j < |a| ensures a[i] != a[j] {
          if i == 0 {
            assert a[j] == a[1..][j - 1];
            assert a[j] in b[1..];
            HeadNotInTail(b);
          } else {
            assert a[i] == a[1..][i - 1] && a[j] == a[1..][j - 1];
          }
        }
      } else {
        SubsequenceDistinct(a, b[1..]);
      }
    }
  }
}

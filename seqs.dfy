/** Sequence operations that the source expresses with `Array.prototype.filter`,
    `includes` and `[...new Set(xs)]`, with the facts the rest of the model needs. */
module Seqs {

  /** No element occurs twice in `s`. */
  predicate NoDups<T(==,!new)>(s: seq<T>)
  {
    forall i, j :: 0 <= i < j < |s| ==> s[i] != s[j]
  }

  /** `a` is `b` with some elements deleted, the rest kept in their order. */
  predicate IsSubsequence<T(==,!new)>(a: seq<T>, b: seq<T>)
    decreases |b|
  {
    if b == [] then a == []
    else (a != [] && a[0] == b[0] && IsSubsequence(a[1..], b[1..])) || IsSubsequence(a, b[1..])
  }

  /** `xs.filter(keep)`: the elements that pass `keep`, each as often as in `s`. */
  function Filter<T(==,!new)>(s: seq<T>, keep: T -> bool): (r: seq<T>)
    ensures |r| <= |s|
    ensures forall x :: multiset(r)[x] == if keep(x) then multiset(s)[x] else 0
    ensures forall i :: 0 <= i < |r| ==> keep(r[i]) && r[i] in s
  {
    if s == [] then []
    else
      assert s == [s[0]] + s[1..];
      if keep(s[0]) then [s[0]] + Filter(s[1..], keep) else Filter(s[1..], keep)
  }

  /** The positions at or after `lo` whose element passes the test. */
  ghost function KeptIndexes<T>(s: seq<T>, keep: T -> bool, lo: nat): set<int>
  {
    set i | lo <= i < |s| && keep(s[i])
  }

  /** Filtering keeps one element per passing position: its length counts them. */
  lemma {:induction false} FilterCountsIndexes<T(!new)>(s: seq<T>, keep: T -> bool, lo: nat)
    requires lo <= |s|
    ensures |Filter(s[lo..], keep)| == |KeptIndexes(s, keep, lo)|
    decreases |s| - lo
  {
    if lo == |s| {
      assert KeptIndexes(s, keep, lo) == {};
    } else {
      FilterCountsIndexes(s, keep, lo + 1);
      KeptIndexesStep(s, keep, lo);
      var t := s[lo..];
      assert t[0] == s[lo] && t[1..] == s[lo + 1..];
    }
  }

  lemma KeptIndexesStep<T>(s: seq<T>, keep: T -> bool, lo: nat)
    requires lo < |s|
    ensures |KeptIndexes(s, keep, lo)| == |KeptIndexes(s, keep, lo + 1)| + (if keep(s[lo]) then 1 else 0)
  {
    var rest := KeptIndexes(s, keep, lo + 1);
    if keep(s[lo]) {
      assert KeptIndexes(s, keep, lo) == rest + {lo};
    } else {
      assert KeptIndexes(s, keep, lo) == rest;
    }
  }

  /** A weaker test keeps at least as many elements. */
  lemma {:induction false} FilterWeakerKeepsMore<T(!new)>(s: seq<T>, strong: T -> bool, weak: T -> bool)
    requires forall i :: 0 <= i < |s| && strong(s[i]) ==> weak(s[i])
    ensures |Filter(s, strong)| <= |Filter(s, weak)|
    decreases |s|
  {
    if s != [] {
      FilterWeakerKeepsMore(s[1..], strong, weak);
    }
  }

  /** The filter keeps an element exactly when it occurs in `s` and passes `keep`. */
  lemma FilterMembership<T(!new)>(s: seq<T>, keep: T -> bool, x: T)
    ensures x in Filter(s, keep) <==> x in s && keep(x)
  {
    assert x in Filter(s, keep) <==> multiset(Filter(s, keep))[x] > 0;
    assert x in s <==> multiset(s)[x] > 0;
  }

  /** The filter keeps the order of `s`. */
  lemma {:induction false} FilterIsSubsequence<T(!new)>(s: seq<T>, keep: T -> bool)
    ensures IsSubsequence(Filter(s, keep), s)
    decreases |s|
  {
    if s != [] {
      FilterIsSubsequence(s[1..], keep);
    }
  }

  /** If every element passes, the filter is the identity. */
  lemma {:induction false} FilterAll<T(!new)>(s: seq<T>, keep: T -> bool)
    requires forall i :: 0 <= i < |s| ==> keep(s[i])
    ensures Filter(s, keep) == s
    decreases |s|
  {
    if s != [] {
      FilterAll(s[1..], keep);
    }
  }

  /** `xs.filter(y => y !== x)`. */
  function RemoveAll<T(==,!new)>(s: seq<T>, x: T): (r: seq<T>)
    ensures x !in r
    ensures forall y :: y != x ==> multiset(r)[y] == multiset(s)[y]
    ensures IsSubsequence(r, s)
    ensures NoDups(s) ==> NoDups(r)
  {
    var r := Filter(s, y => y != x);
    FilterIsSubsequence(s, y => y != x);
    SubsequenceNoDups(r, s);
    r
  }

  /** A subsequence of a duplicate-free sequence is duplicate-free. */
  lemma {:induction false} SubsequenceNoDups<T(!new)>(a: seq<T>, b: seq<T>)
    requires IsSubsequence(a, b)
    ensures NoDups(b) ==> NoDups(a)
    decreases |b|
  {
    if b != [] && NoDups(b) {
      assert NoDups(b[1..]);
      if a != [] && a[0] == b[0] && IsSubsequence(a[1..], b[1..]) {
        SubsequenceNoDups(a[1..], b[1..]);
        SubsequenceElements(a[1..], b[1..]);
        assert forall j :: 0 < j < |a| ==> a[j] == a[1..][j - 1] && a[j] in b[1..];
        assert b[0] !in b[1..];
      } else {
        SubsequenceNoDups(a, b[1..]);
      }
    }
  }

  /** Every element of a subsequence occurs in the sequence. */
  lemma {:induction false} SubsequenceElements<T(!new)>(a: seq<T>, b: seq<T>)
    requires IsSubsequence(a, b)
    ensures forall x :: x in a ==> x in b
    decreases |b|
  {
    if b != [] {
      if a != [] && a[0] == b[0] && IsSubsequence(a[1..], b[1..]) {
        SubsequenceElements(a[1..], b[1..]);
        assert a == [a[0]] + a[1..];
        assert b == [b[0]] + b[1..];
      } else {
        SubsequenceElements(a, b[1..]);
        assert b == [b[0]] + b[1..];
      }
    }
  }

  /** `[...new Set(s)]`: each element once, in the order of its first occurrence. */
  function Dedup<T(==,!new)>(s: seq<T>): (r: seq<T>)
    ensures NoDups(r)
    ensures forall x :: x in r <==> x in s
    decreases |s|
  {
    if s == [] then []
    else
      var d := Dedup(s[..|s| - 1]);
      assert s == s[..|s| - 1] + [s[|s| - 1]];
      if s[|s| - 1] in d then d else d + [s[|s| - 1]]
  }

  /** Index of the first occurrence of `x` in `s`. */
  function FirstIndex<T(==,!new)>(s: seq<T>, x: T): (k: nat)
    requires x in s
    ensures k < |s| && s[k] == x && x !in s[..k]
  {
    if s[0] == x then 0 else 1 + FirstIndex(s[1..], x)
  }

  /** Appending never moves the first occurrence of an element already present. */
  lemma {:induction false} FirstIndexAppend<T(!new)>(s: seq<T>, y: T, x: T)
    requires x in s
    ensures FirstIndex(s + [y], x) == FirstIndex(s, x)
  {
    if s[0] != x {
      assert (s + [y])[1..] == s[1..] + [y];
      FirstIndexAppend(s[1..], y, x);
    }
  }

  /** `Dedup` lists elements by their first occurrence in `s`. */
  lemma {:induction false} DedupFirstOccurrenceOrder<T(!new)>(s: seq<T>)
    ensures forall i, j :: 0 <= i < j < |Dedup(s)| ==> FirstIndex(s, Dedup(s)[i]) < FirstIndex(s, Dedup(s)[j])
    decreases |s|
  {
    if s != [] {
      var p, y := s[..|s| - 1], s[|s| - 1];
      assert s == p + [y];
      DedupFirstOccurrenceOrder(p);
      var d := Dedup(p);
      forall x | x in d
        ensures FirstIndex(s, x) == FirstIndex(p, x) < |p|
      {
        FirstIndexAppend(p, y, x);
      }
      if y !in d {
        assert FirstIndex(s, y) == |p|;
        assert forall i :: 0 <= i < |d| ==> d[i] in d;
      }
    }
  }

  /** On a duplicate-free sequence, appending `x` then deduplicating adds `x`
      at the end only if it was absent. */
  lemma {:induction false} DedupAppend<T(!new)>(s: seq<T>, x: T)
    requires NoDups(s)
    ensures Dedup(s + [x]) == if x in s then s else s + [x]
  {
    DedupOfNoDups(s);
    assert (s + [x])[..|s + [x]| - 1] == s;
  }

  /** A duplicate-free sequence is its own deduplication. */
  lemma {:induction false} DedupOfNoDups<T(!new)>(s: seq<T>)
    requires NoDups(s)
    ensures Dedup(s) == s
    decreases |s|
  {
    if s != [] {
      var p := s[..|s| - 1];
      assert NoDups(p);
      DedupOfNoDups(p);
      assert s == p + [s[|s| - 1]];
      assert s[|s| - 1] !in p;
    }
  }

  /** In a duplicate-free sequence every present element occurs exactly once. */
  lemma {:induction false} NoDupsOccursOnce<T(!new)>(s: seq<T>, x: T)
    requires NoDups(s) && x in s
    ensures multiset(s)[x] == 1
    decreases |s|
  {
    assert s == [s[0]] + s[1..];
    assert NoDups(s[1..]);
    if s[0] == x {
      assert x !in s[1..];
    } else {
      NoDupsOccursOnce(s[1..], x);
    }
  }
}

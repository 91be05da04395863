/**
 * The partner record of the partners-slider block and the shape its list of
 * records is meant to keep: every record has a distinct display position, and
 * the positions are exactly 0 .. n-1.
 */
module Partners {

  /**
   * One slide of the carousel. `index` is its display position; `image` is the
   * URL of its picture, the empty string when no picture was chosen yet (the
   * block treats a missing and an empty image alike).
   */
  datatype Partner = Partner(index: nat, image: string)

  /** The display positions of `ps`, in storage order. */
  function Indices(ps: seq<Partner>): (r: seq<nat>)
    ensures |r| == |ps|
    ensures forall i :: 0 <= i < |ps| ==> r[i] == ps[i].index
  {
    seq(|ps|, i requires 0 <= i < |ps| => ps[i].index)
  }

  /** Positions of a concatenation are the concatenated positions. */
  lemma IndicesConcat(a: seq<Partner>, b: seq<Partner>)
    ensures Indices(a + b) == Indices(a) + Indices(b)
  {
  }

  /** The positions 0 .. n-1 in ascending order. */
  function Range(n: nat): (r: seq<nat>)
    ensures |r| == n
    ensures forall k :: 0 <= k < n ==> r[k] == k
  {
    seq(n, k requires 0 <= k < n => k)
  }

  /** Some record of `ps` sits at position `t`. */
  predicate HasIndex(ps: seq<Partner>, t: nat) {
    exists i :: 0 <= i < |ps| && ps[i].index == t
  }

  /** No two records share a position. */
  predicate UniqueIndices(ps: seq<Partner>) {
    forall i, j :: 0 <= i < j < |ps| ==> ps[i].index != ps[j].index
  }

  /** Every record's position is below the length of the list. */
  predicate IndicesBelow(ps: seq<Partner>, n: nat) {
    forall i :: 0 <= i < |ps| ==> ps[i].index < n
  }

  /**
   * The list is dense: positions are distinct and below the length. By
   * `DenseIsRangePermutation` this is the same as the positions being a
   * permutation of 0 .. n-1.
   */
  predicate Dense(ps: seq<Partner>) {
    UniqueIndices(ps) && IndicesBelow(ps, |ps|)
  }

  /** Storage order agrees with display order. */
  predicate SortedByIndex(ps: seq<Partner>) {
    forall i, j :: 0 <= i < j < |ps| ==> ps[i].index <= ps[j].index
  }

  /** How many records of `ps` sit at position `t`. */
  function CountIndex(ps: seq<Partner>, t: nat): (c: nat)
    ensures c <= |ps|
    ensures c == 0 <==> !HasIndex(ps, t)
  {
    if |ps| == 0 then 0
    else
      var rest := CountIndex(ps[1..], t);
      assert HasIndex(ps, t) <==> ps[0].index == t || HasIndex(ps[1..], t) by {
        if HasIndex(ps[1..], t) {
          var i :| 0 <= i < |ps[1..]| && ps[1..][i].index == t;
          assert ps[i + 1].index == t;
        }
        if HasIndex(ps, t) && ps[0].index != t {
          var i :| 0 <= i < |ps| && ps[i].index == t;
          assert ps[1..][i - 1].index == t;
        }
      }
      (if ps[0].index == t then 1 else 0) + rest
  }

  /** `a` is `b` with some elements left out, the rest in their original order. */
  predicate IsSubsequence<T(==)>(a: seq<T>, b: seq<T>)
    decreases |b|
  {
    if |a| == 0 then true
    else if |b| == 0 then false
    else (a[0] == b[0] && IsSubsequence(a[1..], b[1..])) || IsSubsequence(a, b[1..])
  }

  /** The elements of a subsequence are elements of the whole. */
  lemma {:induction false} SubsequenceMembers<T>(a: seq<T>, b: seq<T>)
    requires IsSubsequence(a, b)
    ensures forall i :: 0 <= i < |a| ==> a[i] in b
    decreases |b|
  {
    if |a| > 0 {
      if a[0] == b[0] && IsSubsequence(a[1..], b[1..]) {
        SubsequenceMembers(a[1..], b[1..]);
        forall i | 0 < i < |a| ensures a[i] in b {
          assert a[1..][i - 1] == a[i];
          assert a[i] in b[1..];
        }
      } else {
        SubsequenceMembers(a, b[1..]);
        forall i | 0 <= i < |a| ensures a[i] in b {
          assert a[i] in b[1..];
        }
      }
    }
  }

  /** A subsequence of a list with distinct positions has distinct positions. */
  lemma {:induction false} SubsequenceKeepsUnique(a: seq<Partner>, b: seq<Partner>)
    requires IsSubsequence(a, b) && UniqueIndices(b)
    ensures UniqueIndices(a)
    decreases |b|
  {
    if |a| > 0 {
      assert UniqueIndices(b[1..]) by {
        forall i, j | 0 <= i < j < |b[1..]| ensures b[1..][i].index != b[1..][j].index {
          assert b[1..][i] == b[i + 1] && b[1..][j] == b[j + 1];
        }
      }
      if a[0] == b[0] && IsSubsequence(a[1..], b[1..]) {
        SubsequenceKeepsUnique(a[1..], b[1..]);
        SubsequenceMembers(a[1..], b[1..]);
        forall i, j | 0 <= i < j < |a| ensures a[i].index != a[j].index {
          assert a[1..][j - 1] == a[j];
          var m :| 0 <= m < |b[1..]| && b[1..][m] == a[j];
          assert b[m + 1] == a[j];
          if i > 0 {
            assert a[1..][i - 1] == a[i];
          }
        }
      } else {
        SubsequenceKeepsUnique(a, b[1..]);
      }
    }
  }

  /** A subsequence of a list sorted by position is sorted by position. */
  lemma {:induction false} SubsequenceKeepsSorted(a: seq<Partner>, b: seq<Partner>)
    requires IsSubsequence(a, b) && SortedByIndex(b)
    ensures SortedByIndex(a)
    decreases |b|
  {
    if |a| > 0 {
      assert SortedByIndex(b[1..]) by {
        forall i, j | 0 <= i < j < |b[1..]| ensures b[1..][i].index <= b[1..][j].index {
          assert b[1..][i] == b[i + 1] && b[1..][j] == b[j + 1];
        }
      }
      if a[0] == b[0] && IsSubsequence(a[1..], b[1..]) {
        SubsequenceKeepsSorted(a[1..], b[1..]);
        SubsequenceMembers(a[1..], b[1..]);
        forall i, j | 0 <= i < j < |a| ensures a[i].index <= a[j].index {
          assert a[1..][j - 1] == a[j];
          var m :| 0 <= m < |b[1..]| && b[1..][m] == a[j];
          assert b[m + 1] == a[j];
          if i > 0 {
            assert a[1..][i - 1] == a[i];
          }
        }
      } else {
        SubsequenceKeepsSorted(a, b[1..]);
      }
    }
  }

  /** With distinct positions, exactly one record sits at a position that occurs. */
  lemma {:induction false} CountUniquePresent(ps: seq<Partner>, t: nat)
    requires UniqueIndices(ps)
    ensures CountIndex(ps, t) == if HasIndex(ps, t) then 1 else 0
    decreases |ps|
  {
    if |ps| > 0 {
      CountUniquePresent(ps[1..], t);
      if ps[0].index == t {
        forall i | 0 <= i < |ps[1..]| ensures ps[1..][i].index != t {
          assert ps[1..][i] == ps[i + 1];
        }
      }
    }
  }

  /** The positions of a sequence with no repeats each occur exactly once. */
  lemma {:induction false} DistinctMultiplicity(s: seq<nat>)
    requires forall i, j :: 0 <= i < j < |s| ==> s[i] != s[j]
    ensures forall x :: multiset(s)[x] == if x in s then 1 else 0
  {
    if |s| > 0 {
      var last := s[|s| - 1];
      var init := s[..|s| - 1];
      assert s == init + [last];
      DistinctMultiplicity(init);
      assert last !in init;
      forall x ensures multiset(s)[x] == if x in s then 1 else 0 {
        assert multiset(s)[x] == multiset(init)[x] + multiset([last])[x];
        assert x in s <==> x in init || x == last;
      }
    }
  }

  /** The set of values occurring in `s`. */
  function Elements(s: seq<nat>): set<nat> {
    set x | x in s
  }

  /** A sequence with no repeats has as many distinct elements as it is long. */
  lemma {:induction false} DistinctCardinality(s: seq<nat>)
    requires forall i, j :: 0 <= i < j < |s| ==> s[i] != s[j]
    ensures |Elements(s)| == |s|
  {
    if |s| > 0 {
      var last := s[|s| - 1];
      var init := s[..|s| - 1];
      assert s == init + [last];
      DistinctCardinality(init);
      assert last !in init;
      assert forall x :: x in s <==> x in init || x == last;
      assert Elements(s) == Elements(init) + {last};
    }
  }

  /** A finite set contained in another of the same size is equal to it. */
  lemma SubsetSameSize(a: set<nat>, b: set<nat>)
    requires a <= b && |a| == |b|
    ensures a == b
  {
    assert a + (b - a) == b;
    assert a * (b - a) == {};
    assert |b - a| == 0;
  }

  /**
   * Pigeonhole for positions: n distinct positions below n cover every
   * position below n.
   */
  lemma DenseCovers(ps: seq<Partner>)
    requires Dense(ps)
    ensures forall k :: 0 <= k < |ps| ==> HasIndex(ps, k)
  {
    var s := Indices(ps);
    var r := Range(|ps|);
    DistinctCardinality(s);
    DistinctCardinality(r);
    var used := Elements(s);
    var all := Elements(r);
    forall x | x in used ensures x in all {
      var i :| 0 <= i < |s| && s[i] == x;
      assert r[x] == x;
    }
    SubsetSameSize(used, all);
    forall k | 0 <= k < |ps| ensures HasIndex(ps, k) {
      assert r[k] == k;
      assert k in all;
      assert k in used;
      var i :| 0 <= i < |s| && s[i] == k;
      assert ps[i].index == k;
    }
  }

  /** A dense list's positions, counted with repeats, are 0 .. n-1. */
  lemma DenseIsPermutation(ps: seq<Partner>)
    requires Dense(ps)
    ensures multiset(Indices(ps)) == multiset(Range(|ps|))
  {
    var s := Indices(ps);
    var r := Range(|ps|);
    DistinctMultiplicity(r);
    DistinctMultiplicity(s);
    DenseCovers(ps);
    forall x ensures multiset(s)[x] == multiset(r)[x] {
      if x in r {
        var k :| 0 <= k < |r| && r[k] == x;
        assert HasIndex(ps, k);
        var i :| 0 <= i < |ps| && ps[i].index == k;
        assert s[i] == x;
      }
      if x in s {
        var i :| 0 <= i < |s| && s[i] == x;
        assert r[x] == x;
      }
    }
  }

  /** Positions that are 0 .. n-1, counted with repeats, make a dense list. */
  lemma PermutationIsDense(ps: seq<Partner>)
    requires multiset(Indices(ps)) == multiset(Range(|ps|))
    ensures Dense(ps)
  {
    var s := Indices(ps);
    var r := Range(|ps|);
    DistinctMultiplicity(r);
    forall i | 0 <= i < |ps| ensures ps[i].index < |ps| {
      assert s[i] in multiset(r);
      assert s[i] in r;
    }
    forall i, j | 0 <= i < j < |ps| ensures ps[i].index != ps[j].index {
      assert s == s[..j] + [s[j]] + s[j + 1..];
      assert s[j] in multiset(r);
      assert multiset(s[..j])[s[j]] == 0;
      assert s[i] in s[..j];
    }
  }

  /**
   * The list is dense exactly when its positions, counted with repeats, are
   * the positions 0 .. n-1.
   */
  lemma DenseIsRangePermutation(ps: seq<Partner>)
    ensures Dense(ps) <==> multiset(Indices(ps)) == multiset(Range(|ps|))
  {
    if Dense(ps) {
      DenseIsPermutation(ps);
    }
    if multiset(Indices(ps)) == multiset(Range(|ps|)) {
      PermutationIsDense(ps);
    }
  }
}

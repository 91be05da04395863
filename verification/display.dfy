/**
 * The editor shows the slides ordered by position, sorting the stored list
 * with the comparator `a.index - b.index`. The sort is modelled as a stable
 * insertion sort on positions.
 */
module Display {
  import opened Partners
  import opened PartnerList

  /** A bound below every record of `s` and below `x` is below every record of a rearrangement of both. */
  lemma MultisetLowerBound(r: seq<Partner>, s: seq<Partner>, x: Partner, bound: nat)
    requires multiset(r) == multiset(s) + multiset{x}
    requires bound <= x.index && forall i :: 0 <= i < |s| ==> bound <= s[i].index
    ensures forall j :: 0 <= j < |r| ==> bound <= r[j].index
  {
    forall j | 0 <= j < |r| ensures bound <= r[j].index {
      assert r[j] in multiset(r);
      if r[j] != x {
        assert r[j] in multiset(s);
      }
    }
  }

  /** A record no later than any of a sorted list can go in front of it. */
  lemma ConsSorted(h: Partner, t: seq<Partner>)
    requires SortedByIndex(t) && forall j :: 0 <= j < |t| ==> h.index <= t[j].index
    ensures SortedByIndex([h] + t)
  {
    var r := [h] + t;
    forall i, j | 0 <= i < j < |r| ensures r[i].index <= r[j].index {
      assert r[j] == t[j - 1];
      if i > 0 {
        assert r[i] == t[i - 1];
      }
    }
  }

  /** The rest of a sorted list is sorted and no earlier than its head. */
  lemma TailSorted(s: seq<Partner>)
    requires SortedByIndex(s) && |s| > 0
    ensures SortedByIndex(s[1..])
    ensures forall j :: 0 <= j < |s[1..]| ==> s[0].index <= s[1..][j].index
    ensures multiset(s) == multiset{s[0]} + multiset(s[1..])
  {
    assert s == [s[0]] + s[1..];
  }

  /** Puts `x` into a list sorted by position, ahead of records at the same position. */
  function Insert(x: Partner, s: seq<Partner>): (r: seq<Partner>)
    requires SortedByIndex(s)
    ensures SortedByIndex(r)
    ensures multiset(r) == multiset(s) + multiset{x}
  {
    if |s| == 0 then [x]
    else if x.index <= s[0].index then
      ConsSorted(x, s);
      [x] + s
    else
      TailSorted(s);
      var rest := Insert(x, s[1..]);
      MultisetLowerBound(rest, s[1..], x, s[0].index);
      ConsSorted(s[0], rest);
      [s[0]] + rest
  }

  /** The display order of the editor: the records sorted by position. */
  function SortByIndex(ps: seq<Partner>): (r: seq<Partner>)
    ensures SortedByIndex(r)
    ensures multiset(r) == multiset(ps)
    ensures |r| == |ps|
  {
    if |ps| == 0 then []
    else
      assert ps == [ps[0]] + ps[1..];
      Insert(ps[0], SortByIndex(ps[1..]))
  }

  /** Taking an element out of a sequence takes one copy of it out of its multiset. */
  lemma MultisetRemoveAt<T>(s: seq<T>, m: nat)
    requires m < |s|
    ensures multiset(s[..m] + s[m + 1..]) == multiset(s) - multiset{s[m]}
    ensures multiset(s) == multiset(s[..m] + s[m + 1..]) + multiset{s[m]}
  {
    assert s == s[..m] + [s[m]] + s[m + 1..];
  }

  /** Dropping the head of a sequence takes one copy of it out of its multiset. */
  lemma MultisetTail<T>(s: seq<T>)
    requires |s| > 0
    ensures multiset(s[1..]) == multiset(s) - multiset{s[0]}
  {
    assert s == [s[0]] + s[1..];
  }

  /** Taking out the record at `m` takes its position out of the positions. */
  lemma IndicesRemoveAt(b: seq<Partner>, m: nat)
    requires m < |b|
    ensures Indices(b[..m] + b[m + 1..]) == Indices(b)[..m] + Indices(b)[m + 1..]
  {
    var l := b[..m] + b[m + 1..];
    var r := Indices(b)[..m] + Indices(b)[m + 1..];
    assert |Indices(l)| == |r|;
    forall k | 0 <= k < |r| ensures Indices(l)[k] == r[k] {
      if k < m {
        assert l[k] == b[k];
      } else {
        assert l[k] == b[k + 1];
      }
    }
  }

  /** Rearranging the records rearranges their positions alike. */
  lemma {:induction false} IndicesOfPermutation(a: seq<Partner>, b: seq<Partner>)
    requires multiset(a) == multiset(b)
    ensures multiset(Indices(a)) == multiset(Indices(b))
    decreases |a|
  {
    if |a| == 0 {
      assert |b| == |multiset(b)| == 0;
    } else {
      assert a[0] in multiset(b);
      var m :| 0 <= m < |b| && b[m] == a[0];
      var rest := b[..m] + b[m + 1..];
      assert multiset(a[1..]) == multiset(rest) by {
        MultisetTail(a);
        MultisetRemoveAt(b, m);
      }
      IndicesOfPermutation(a[1..], rest);
      var ia, ib := Indices(a), Indices(b);
      assert ib[..m] + ib[m + 1..] == Indices(rest) by {
        IndicesRemoveAt(b, m);
      }
      assert multiset(ia) == multiset(Indices(a[1..])) + multiset{a[0].index} by {
        MultisetTail(ia);
        assert ia[1..] == Indices(a[1..]);
      }
      assert multiset(ib) == multiset(Indices(rest)) + multiset{a[0].index} by {
        MultisetRemoveAt(ib, m);
      }
    }
  }

  /** Sorting a dense list gives a dense list. */
  lemma SortKeepsDense(ps: seq<Partner>)
    requires Dense(ps)
    ensures Dense(SortByIndex(ps))
  {
    IndicesOfPermutation(ps, SortByIndex(ps));
    DenseIsRangePermutation(ps);
    DenseIsRangePermutation(SortByIndex(ps));
  }

  /** In a sorted list with distinct positions, each record is at least its slot. */
  lemma {:induction false} StrictLowerBound(s: seq<Partner>, j: nat)
    requires SortedByIndex(s) && UniqueIndices(s) && j < |s|
    ensures s[j].index >= j
    decreases j
  {
    if j > 0 {
      StrictLowerBound(s, j - 1);
    }
  }

  /** In a sorted dense list, each record is at most its slot. */
  lemma {:induction false} StrictUpperBound(s: seq<Partner>, j: nat)
    requires SortedByIndex(s) && Dense(s) && j < |s|
    ensures s[j].index <= j
    decreases |s| - j
  {
    if j + 1 < |s| {
      StrictUpperBound(s, j + 1);
    }
  }

  /** Sorting a dense list puts the record at position j into slot j. */
  lemma DenseSortedPositions(ps: seq<Partner>)
    requires Dense(ps)
    ensures forall j :: 0 <= j < |ps| ==> SortByIndex(ps)[j].index == j
  {
    var s := SortByIndex(ps);
    SortKeepsDense(ps);
    forall j | 0 <= j < |ps| ensures s[j].index == j {
      StrictLowerBound(s, j);
      StrictUpperBound(s, j);
    }
  }

  /** A list already in display order is left as it is. */
  lemma {:induction false} SortSortedIsIdentity(ps: seq<Partner>)
    requires SortedByIndex(ps)
    ensures SortByIndex(ps) == ps
  {
    if |ps| > 0 {
      TailSorted(ps);
      SortSortedIsIdentity(ps[1..]);
      assert ps == [ps[0]] + ps[1..];
    }
  }

  /** In a list with distinct positions, a record is determined by its position. */
  lemma SamePositionSameRecord(ps: seq<Partner>, p: Partner, q: Partner)
    requires UniqueIndices(ps) && p in ps && q in ps && p.index == q.index
    ensures p == q
  {
  }

  /** Slot j of the display of a dense list holds a record of the list at position j. */
  lemma DisplaySlot(ps: seq<Partner>, j: nat)
    requires Dense(ps) && j < |ps|
    ensures SortByIndex(ps)[j] in ps && SortByIndex(ps)[j].index == j
  {
    DenseSortedPositions(ps);
    assert SortByIndex(ps)[j] in multiset(SortByIndex(ps));
  }

  /** A slot of the new display holding an old record holds the same record as before. */
  lemma SlotUnchanged(ps: seq<Partner>, r: seq<Partner>, j: nat)
    requires Dense(ps) && Dense(r) && j < |ps| == |r|
    requires SortByIndex(r)[j] in ps
    ensures SortByIndex(r)[j] == SortByIndex(ps)[j]
  {
    DisplaySlot(r, j);
    DisplaySlot(ps, j);
  }

  /** Slot j of the display after picking an image for record k. */
  lemma SetImageSlot(ps: seq<Partner>, k: nat, image: string, j: nat)
    requires Dense(ps) && k < |ps| && j < |ps|
    ensures |SortByIndex(SetImage(ps, ps[k], image))| == |ps|
    ensures SortByIndex(SetImage(ps, ps[k], image))[j]
            == (if j == ps[k].index then Partner(ps[k].index, image) else SortByIndex(ps)[j])
  {
    var x := Partner(ps[k].index, image);
    var r := SetImage(ps, ps[k], image);
    SetImageMovesLast(ps, k, image);
    SetImageKeepsIndices(ps, k, image);
    var front := ps[..k] + ps[k + 1..];
    assert r == front + [x];
    var p := SortByIndex(r)[j];
    DisplaySlot(r, j);
    if j == ps[k].index {
      assert r[|r| - 1] == x;
      SamePositionSameRecord(r, p, x);
    } else {
      assert p != x;
      assert p in front;
      assert p in ps[..k] || p in ps[k + 1..];
      SlotUnchanged(ps, r, j);
    }
  }

  /**
   * Although picking an image moves the record to the end of storage, the
   * display order is unchanged: sorting again gives the old display with just
   * that slide's image replaced.
   */
  lemma SetImageDisplay(ps: seq<Partner>, k: nat, image: string)
    requires Dense(ps) && k < |ps|
    ensures SortByIndex(SetImage(ps, ps[k], image))
            == SortByIndex(ps)[ps[k].index := Partner(ps[k].index, image)]
  {
    var s' := SortByIndex(SetImage(ps, ps[k], image));
    var s := SortByIndex(ps)[ps[k].index := Partner(ps[k].index, image)];
    SetImageMovesLast(ps, k, image);
    assert |s'| == |s|;
    forall j | 0 <= j < |s| ensures s'[j] == s[j] {
      SetImageSlot(ps, k, image, j);
    }
  }
}

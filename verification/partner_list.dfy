/**
 * The edits the block's editor makes to its list of partners (the add
 * button, the remove button of a slide, the media picker of a slide), each
 * lifted out of its event handler into a function from the old list to the
 * list the handler stores.
 */
module PartnerList {
  import opened Wrappers
  import opened Partners

  /** The add button: a new record, without image, at the position equal to the old length. */
  function Append(ps: seq<Partner>): (r: seq<Partner>)
    ensures |r| == |ps| + 1
    ensures r[..|ps|] == ps
    ensures r[|ps|].index == |ps| && r[|ps|].image == ""
  {
    ps + [Partner(|ps|, "")]
  }

  /** The filter step of removal: every record at position `t` goes, the rest stay in order. */
  function DropIndex(ps: seq<Partner>, t: nat): (r: seq<Partner>)
    ensures |r| == |ps| - CountIndex(ps, t)
    ensures forall i :: 0 <= i < |r| ==> r[i].index != t
    ensures IsSubsequence(r, ps)
  {
    if |ps| == 0 then []
    else if ps[0].index == t then DropIndex(ps[1..], t)
    else
      var rest := DropIndex(ps[1..], t);
      assert ([ps[0]] + rest)[1..] == rest;
      [ps[0]] + rest
  }

  /** What the filter step keeps: records of the input, so distinct or ordered positions stay so. */
  lemma DropIndexKeeps(ps: seq<Partner>, t: nat)
    ensures forall i :: 0 <= i < |DropIndex(ps, t)| ==> DropIndex(ps, t)[i] in ps
    ensures UniqueIndices(ps) ==> UniqueIndices(DropIndex(ps, t))
    ensures SortedByIndex(ps) ==> SortedByIndex(DropIndex(ps, t))
  {
    SubsequenceMembers(DropIndex(ps, t), ps);
    if UniqueIndices(ps) {
      SubsequenceKeepsUnique(DropIndex(ps, t), ps);
    }
    if SortedByIndex(ps) {
      SubsequenceKeepsSorted(DropIndex(ps, t), ps);
    }
  }

  /** The position a record takes once the record at position `t` is gone. */
  function Shift(p: Partner, t: nat): Partner {
    if p.index > t then p.(index := p.index - 1) else p
  }

  /** The map step of removal: records above position `t` move down by one. */
  function Reindex(ps: seq<Partner>, t: nat): (r: seq<Partner>)
    ensures |r| == |ps|
    ensures forall i :: 0 <= i < |ps| ==> r[i].image == ps[i].image
    ensures forall i :: 0 <= i < |ps| && ps[i].index > t ==> r[i].index == ps[i].index - 1
    ensures forall i :: 0 <= i < |ps| && ps[i].index <= t ==> r[i].index == ps[i].index
  {
    seq(|ps|, i requires 0 <= i < |ps| => Shift(ps[i], t))
  }

  /** The remove button of the slide at position `t`. */
  function Remove(ps: seq<Partner>, t: nat): (r: seq<Partner>)
    ensures |r| == |ps| - CountIndex(ps, t)
    ensures HasIndex(ps, t) ==> |r| < |ps|
  {
    Reindex(DropIndex(ps, t), t)
  }

  /**
   * The media picker of slide `target`: every record at the target's
   * position is dropped and a copy of the target carrying the new image is
   * stored last.
   */
  function SetImage(ps: seq<Partner>, target: Partner, image: string): (r: seq<Partner>)
    ensures |r| == |ps| - CountIndex(ps, target.index) + 1
    ensures r[|r| - 1] == Partner(target.index, image)
    ensures IsSubsequence(r[..|r| - 1], ps)
    ensures forall i :: 0 <= i < |r| - 1 ==> r[i].index != target.index
  {
    var kept := DropIndex(ps, target.index);
    assert (kept + [target.(image := image)])[..|kept|] == kept;
    kept + [target.(image := image)]
  }

  /** What the media picker hands back: the original URL and, if one exists, the medium-size rendition's URL. */
  datatype Media = Media(url: string, mediumUrl: Option<string>)

  /** The URL stored for a picked image: the medium rendition when there is one, else the original. */
  function PreferredUrl(media: Media): (url: string)
    ensures media.mediumUrl.Some? ==> url == media.mediumUrl.value
    ensures media.mediumUrl.None? ==> url == media.url
  {
    media.mediumUrl.GetOr(media.url)
  }

  /** The picker's completion for slide `target`. */
  function OnSelect(ps: seq<Partner>, target: Partner, media: Media): (r: seq<Partner>)
    ensures |r| >= 1 && r[|r| - 1] == Partner(target.index, PreferredUrl(media))
  {
    SetImage(ps, target, PreferredUrl(media))
  }

  // ---------------------------------------------------------------------------
  // Removal

  /**
   * A subsequence of `b` that avoids position `t` is no longer than what is
   * left of `b` once its records at `t` are gone.
   */
  lemma {:induction false} SubsequenceAvoidingBound(q: seq<Partner>, b: seq<Partner>, t: nat)
    ensures IsSubsequence(q, b) && (forall i :: 0 <= i < |q| ==> q[i].index != t)
            ==> |q| <= |b| - CountIndex(b, t)
    decreases |b|
  {
    if IsSubsequence(q, b) && (forall i :: 0 <= i < |q| ==> q[i].index != t) && |q| > 0 && |b| > 0 {
      SubsequenceAvoidingBound(q, b[1..], t);
      if q[0] == b[0] && IsSubsequence(q[1..], b[1..]) {
        SubsequenceAvoidingBound(q[1..], b[1..], t);
        assert forall i :: 0 <= i < |q[1..]| ==> q[1..][i] == q[i + 1];
      }
    }
  }

  /**
   * The filter step is determined by its contract: the only in-order
   * selection of records that avoids position `t` and keeps every record not
   * at `t` is `DropIndex(ps, t)`.
   */
  lemma {:induction false} DropIndexIsUnique(ps: seq<Partner>, t: nat, q: seq<Partner>)
    requires IsSubsequence(q, ps)
    requires forall i :: 0 <= i < |q| ==> q[i].index != t
    requires |q| == |ps| - CountIndex(ps, t)
    ensures q == DropIndex(ps, t)
    decreases |ps|
  {
    if |ps| == 0 {
    } else if ps[0].index == t {
      assert IsSubsequence(q, ps[1..]);
      DropIndexIsUnique(ps[1..], t, q);
    } else {
      SubsequenceAvoidingBound(q, ps[1..], t);
      assert q[0] == ps[0] && IsSubsequence(q[1..], ps[1..]);
      assert forall i :: 0 <= i < |q[1..]| ==> q[1..][i] == q[i + 1];
      DropIndexIsUnique(ps[1..], t, q[1..]);
      assert q == [q[0]] + q[1..];
    }
  }

  /** Filtering out a position no record holds changes nothing. */
  lemma {:induction false} DropAbsent(ps: seq<Partner>, t: nat)
    requires !HasIndex(ps, t)
    ensures DropIndex(ps, t) == ps
    decreases |ps|
  {
    if |ps| > 0 {
      assert ps[0].index != t;
      assert !HasIndex(ps[1..], t) by {
        forall i | 0 <= i < |ps[1..]| ensures ps[1..][i].index != t {
          assert ps[1..][i] == ps[i + 1];
        }
      }
      DropAbsent(ps[1..], t);
      assert ps == [ps[0]] + ps[1..];
    }
  }

  /** With distinct positions, filtering out the position of record `k` removes just that record. */
  lemma {:induction false} DropUniqueAt(ps: seq<Partner>, k: nat)
    requires UniqueIndices(ps) && k < |ps|
    ensures DropIndex(ps, ps[k].index) == ps[..k] + ps[k + 1..]
    decreases k
  {
    var t := ps[k].index;
    var tail := ps[1..];
    if k == 0 {
      assert !HasIndex(tail, t) by {
        forall i | 0 <= i < |tail| ensures tail[i].index != t {
          assert tail[i] == ps[i + 1];
        }
      }
      DropAbsent(tail, t);
    } else {
      assert UniqueIndices(tail) by {
        forall i, j | 0 <= i < j < |tail| ensures tail[i].index != tail[j].index {
          assert tail[i] == ps[i + 1] && tail[j] == ps[j + 1];
        }
      }
      assert ps[0].index != t;
      assert tail[k - 1] == ps[k];
      DropUniqueAt(tail, k - 1);
      assert DropIndex(ps, t) == [ps[0]] + DropIndex(tail, t);
      assert tail[..k - 1] == ps[1..k];
      assert tail[k..] == ps[k + 1..];
      assert ps[..k] == [ps[0]] + ps[1..k];
    }
  }

  /** Filtering distributes over concatenation. */
  lemma {:induction false} DropConcat(a: seq<Partner>, b: seq<Partner>, t: nat)
    ensures DropIndex(a + b, t) == DropIndex(a, t) + DropIndex(b, t)
    decreases |a|
  {
    if |a| == 0 {
      assert a + b == b;
    } else {
      assert (a + b)[1..] == a[1..] + b;
      assert (a + b)[0] == a[0];
      DropConcat(a[1..], b, t);
    }
  }

  /**
   * Removal keeps the list dense: if the positions are a permutation of
   * 0 .. n-1 and the clicked position `t` is one of them, the result has
   * n-1 records whose positions are a permutation of 0 .. n-2.
   */
  lemma RemoveKeepsDense(ps: seq<Partner>, t: nat)
    requires Dense(ps) && HasIndex(ps, t)
    ensures |Remove(ps, t)| == |ps| - 1
    ensures Dense(Remove(ps, t))
  {
    var d := DropIndex(ps, t);
    var r := Remove(ps, t);
    CountUniquePresent(ps, t);
    DropIndexKeeps(ps, t);
    var k :| 0 <= k < |ps| && ps[k].index == t;
    assert t < |ps|;
    forall i | 0 <= i < |r| ensures r[i].index < |r| {
      assert d[i] in ps;
    }
    forall i, j | 0 <= i < j < |r| ensures r[i].index != r[j].index {
      assert d[i].index != d[j].index;
    }
  }

  /** Removal keeps storage order and display order in agreement. */
  lemma RemoveKeepsSorted(ps: seq<Partner>, t: nat)
    requires SortedByIndex(ps)
    ensures SortedByIndex(Remove(ps, t))
  {
    var d := DropIndex(ps, t);
    var r := Remove(ps, t);
    DropIndexKeeps(ps, t);
    forall i, j | 0 <= i < j < |r| ensures r[i].index <= r[j].index {
      assert d[i].index <= d[j].index;
    }
  }

  /**
   * Removing a position that no record of a dense list holds changes nothing.
   * On a list that is not dense this fails: records above the missing
   * position still move down.
   */
  lemma RemoveAbsentIsNoop(ps: seq<Partner>, t: nat)
    requires Dense(ps) && !HasIndex(ps, t)
    ensures Remove(ps, t) == ps
  {
    DenseCovers(ps);
    DropAbsent(ps, t);
    assert forall i :: 0 <= i < |ps| ==> ps[i].index <= t;
  }

  /** Removing a record that is not at the end still shifts the record above it: the records are not keyed by value. */
  lemma RemoveAbsentShifts()
    ensures Remove([Partner(0, "a"), Partner(2, "c")], 1) == [Partner(0, "a"), Partner(1, "c")]
  {
    var ps := [Partner(0, "a"), Partner(2, "c")];
    assert !HasIndex(ps, 1);
    DropAbsent(ps, 1);
  }

  /** Removing the record just appended restores the list. */
  lemma AppendThenRemove(ps: seq<Partner>)
    requires IndicesBelow(ps, |ps|)
    ensures Remove(Append(ps), |ps|) == ps
  {
    var n := |ps|;
    DropConcat(ps, [Partner(n, "")], n);
    assert !HasIndex(ps, n);
    DropAbsent(ps, n);
    assert DropIndex([Partner(n, "")], n) == [];
  }

  /** The add button keeps the list dense. */
  lemma AppendKeepsDense(ps: seq<Partner>)
    requires Dense(ps)
    ensures Dense(Append(ps))
  {
    var r := Append(ps);
    forall i, j | 0 <= i < j < |r| ensures r[i].index != r[j].index {
      if j < |ps| {
        assert r[i] == ps[i] && r[j] == ps[j];
      }
    }
  }

  /** Removing the middle of three slides. */
  lemma RemoveMiddleOfThree()
    ensures Remove([Partner(0, "a"), Partner(1, "b"), Partner(2, "c")], 1)
            == [Partner(0, "a"), Partner(1, "c")]
  {
    var ps := [Partner(0, "a"), Partner(1, "b"), Partner(2, "c")];
    DropUniqueAt(ps, 1);
    assert ps[..1] + ps[2..] == [Partner(0, "a"), Partner(2, "c")];
  }

  /**
   * Clicking remove twice with the same position takes out two records: the
   * record above slides into the emptied position.
   */
  lemma RemoveTwiceTakesNeighbour()
    ensures Remove(Remove([Partner(0, "a"), Partner(1, "b"), Partner(2, "c")], 1), 1)
            == [Partner(0, "a")]
  {
    RemoveMiddleOfThree();
    var ps := [Partner(0, "a"), Partner(1, "c")];
    DropUniqueAt(ps, 1);
    assert ps[..1] + ps[2..] == [Partner(0, "a")];
  }

  // ---------------------------------------------------------------------------
  // Image update

  /**
   * With distinct positions, picking an image for record `k` takes that record
   * out of its place and stores it last with the new image; the other records
   * keep their order and their fields.
   */
  lemma SetImageMovesLast(ps: seq<Partner>, k: nat, image: string)
    requires UniqueIndices(ps) && k < |ps|
    ensures SetImage(ps, ps[k], image) == ps[..k] + ps[k + 1..] + [Partner(ps[k].index, image)]
    ensures |SetImage(ps, ps[k], image)| == |ps|
  {
    DropUniqueAt(ps, k);
  }

  /**
   * Picking an image keeps the multiset of positions, so a dense list stays
   * dense.
   */
  lemma SetImageKeepsIndices(ps: seq<Partner>, k: nat, image: string)
    requires UniqueIndices(ps) && k < |ps|
    ensures multiset(Indices(SetImage(ps, ps[k], image))) == multiset(Indices(ps))
    ensures Dense(ps) ==> Dense(SetImage(ps, ps[k], image))
  {
    SetImageMovesLast(ps, k, image);
    var r := SetImage(ps, ps[k], image);
    var x := Partner(ps[k].index, image);
    assert ps == ps[..k] + [ps[k]] + ps[k + 1..];
    IndicesConcat(ps[..k] + ps[k + 1..], [x]);
    IndicesConcat(ps[..k], ps[k + 1..]);
    IndicesConcat(ps[..k] + [ps[k]], ps[k + 1..]);
    IndicesConcat(ps[..k], [ps[k]]);
    assert Indices([x]) == Indices([ps[k]]);
    assert multiset(Indices(r)) == multiset(Indices(ps));
    DenseIsRangePermutation(ps);
    DenseIsRangePermutation(r);
  }

  /**
   * When the target's position is held by no record, the picked image is not
   * dropped: a new record is appended.
   */
  lemma SetImageAbsentAppends(ps: seq<Partner>, target: Partner, image: string)
    requires !HasIndex(ps, target.index)
    ensures SetImage(ps, target, image) == ps + [Partner(target.index, image)]
  {
    DropAbsent(ps, target.index);
  }
}

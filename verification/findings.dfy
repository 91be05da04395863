/**
 * Two places where the block's code, read literally, does not do what it
 * evidently intends. Each is modelled as written and set against the
 * corrected definition used by the rest of the model.
 */
module Findings {
  import opened Wrappers
  import opened Partners
  import opened PartnerList
  import opened Decimal
  import opened Markup

  // ---------------------------------------------------------------------------
  // Removal after reloading compares positions as text

  /** JavaScript's `>` on two strings: lexicographic order of the characters. */
  predicate TextGreater(a: string, b: string)
    decreases |a|
  {
    if |a| == 0 then false
    else if |b| == 0 then true
    else if a[0] != b[0] then a[0] > b[0]
    else TextGreater(a[1..], b[1..])
  }

  /** No numeral is below the text "0". */
  lemma ZeroTextNotGreater(t: nat)
    ensures !TextGreater(NatToDecimal(0), NatToDecimal(t))
  {
    var s := NatToDecimal(t);
    assert NatToDecimal(0) == "0";
    assert IsDigit(s[0]);
    if s[0] == '0' {
      assert "0"[1..] == "";
    }
  }

  /** On one-digit positions the text order is the number order. */
  lemma DigitTextOrder(n: nat, t: nat)
    requires n < 10 && t < 10
    ensures TextGreater(NatToDecimal(n), NatToDecimal(t)) <==> n > t
  {
    assert NatToDecimal(n) == [DigitChar(n)];
    assert NatToDecimal(t) == [DigitChar(t)];
    if n == t {
      assert [DigitChar(n)][1..] == "";
    }
  }

  /**
   * The position update of the remove handler as written, for a record read
   * back from saved markup: both positions are the text of the hidden element,
   * so `>` compares text, while `-=` turns the result into a number.
   */
  function ShiftLoaded(p: Partner, t: nat): (q: Partner)
    ensures q.image == p.image
    ensures TextGreater(NatToDecimal(p.index), NatToDecimal(t)) ==> q.index + 1 == p.index
    ensures !TextGreater(NatToDecimal(p.index), NatToDecimal(t)) ==> q.index == p.index
  {
    if TextGreater(NatToDecimal(p.index), NatToDecimal(t)) then
      if p.index == 0 then
        ZeroTextNotGreater(t);
        assert false;
        p
      else p.(index := p.index - 1)
    else p
  }

  /**
   * The remove handler as written, on a list read back from saved markup. It
   * keeps the same records as the corrected `Remove`, with the same images,
   * and a record ends up where `Remove` puts it exactly when comparing the
   * position texts agrees with comparing the positions.
   */
  function RemoveLoaded(ps: seq<Partner>, t: nat): (r: seq<Partner>)
    ensures |r| == |Remove(ps, t)|
    ensures forall i :: 0 <= i < |r| ==>
              r[i].image == Remove(ps, t)[i].image
              && (r[i] == Remove(ps, t)[i]
                  <==> (TextGreater(NatToDecimal(DropIndex(ps, t)[i].index), NatToDecimal(t))
                        <==> DropIndex(ps, t)[i].index > t))
  {
    var kept := DropIndex(ps, t);
    seq(|kept|, i requires 0 <= i < |kept| => ShiftLoaded(kept[i], t))
  }

  /** With fewer than ten slides the text comparison does no harm. */
  lemma RemoveLoadedAgreesBelowTen(ps: seq<Partner>, t: nat)
    requires IndicesBelow(ps, 10) && t < 10
    ensures RemoveLoaded(ps, t) == Remove(ps, t)
  {
    var kept := DropIndex(ps, t);
    DropIndexKeeps(ps, t);
    forall i | 0 <= i < |kept| ensures RemoveLoaded(ps, t)[i] == Remove(ps, t)[i] {
      assert kept[i] in ps;
      DigitTextOrder(kept[i].index, t);
    }
  }

  /** Eleven slides at positions 0 .. 10, as read back from saved markup. */
  function ElevenSlides(): (ps: seq<Partner>)
    ensures |ps| == 11 && Dense(ps)
  {
    seq(11, i requires 0 <= i < 11 => Partner(i, ""))
  }

  /** After the as-written removal of slide 9 of eleven, slide 10 is still at position 10. */
  lemma LoadedRemoveKeepsTen()
    ensures |RemoveLoaded(ElevenSlides(), 9)| == 10
    ensures RemoveLoaded(ElevenSlides(), 9)[9].index == 10
  {
    var ps := ElevenSlides();
    assert ps[9].index == 9;
    DropUniqueAt(ps, 9);
    CountUniquePresent(ps, 9);
    var kept := DropIndex(ps, 9);
    assert kept[9] == ps[10];
    TenNotAboveNine();
  }

  /** As text, 10 is not above 9. */
  lemma TenNotAboveNine()
    ensures !TextGreater(NatToDecimal(10), NatToDecimal(9))
  {
    assert NatToDecimal(10) == "10";
    assert NatToDecimal(9) == "9";
  }

  /**
   * Removing slide 9 of eleven after a reload: "10" > "9" is false, so slide
   * 10 keeps its position, the list has a gap, and the next added slide takes
   * position 10 a second time. The corrected removal keeps the list dense.
   */
  lemma LoadedRemoveBreaksDensity()
    ensures HasIndex(ElevenSlides(), 9)
    ensures !Dense(RemoveLoaded(ElevenSlides(), 9))
    ensures !UniqueIndices(Append(RemoveLoaded(ElevenSlides(), 9)))
    ensures Dense(Remove(ElevenSlides(), 9))
  {
    var ps := ElevenSlides();
    assert ps[9].index == 9;
    LoadedRemoveKeepsTen();
    var r := RemoveLoaded(ps, 9);
    assert !IndicesBelow(r, |r|);
    var r' := Append(r);
    assert r'[9] == r[9];
    assert r'[9].index == r'[10].index;
    RemoveKeepsDense(ps, 9);
  }

  // ---------------------------------------------------------------------------
  // The id is read from an element the markup does not have

  /** The class the `id` attribute source looks for, as written. */
  const IdSourceClassAsWritten := "slide"

  /**
   * As written, the id is never read back from saved markup, so every editing
   * session sees a block without id and draws a fresh one. With the class the
   * markup actually carries, the id survives (`SaveLoadRoundTrip`).
   */
  lemma IdLostOnReload(a: Attributes, roll: nat)
    requires |a.partners| > 0 && roll < 100
    ensures LoadId(Save(a).value, IdSourceClassAsWritten) == None
    ensures EnsureId(LoadId(Save(a).value, IdSourceClassAsWritten).GetOr(""), roll)[..7] == "partner"
    ensures LoadId(Save(a).value, IdSourceClassCorrected) == Some(a.id)
  {
    assert Save(a).value.classes == ["carousel"];
    assert IdSourceClassAsWritten !in ["carousel"];
    SaveLoadRoundTrip(a);
  }
}

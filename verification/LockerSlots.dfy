/**
 Parcel locker slots (zdrovena/common/inpost.py, _fits_in_slot and pick_paczkomat_template). Lengths and
 weights are reals.
 */
module LockerSlots {
  import opened Prelude

  datatype Slot = Slot(height: real, width: real, depth: real, maxWeight: real)
  {
    ghost predicate Valid() { height > 0.0 && width > 0.0 && depth > 0.0 }
  }

  datatype Parcel = Parcel(length: real, width: real, height: real, weight: real)

  const SMALL := Slot(8.0, 38.0, 64.0, 25.0)
  const MEDIUM := Slot(19.0, 38.0, 64.0, 25.0)
  const LARGE := Slot(41.0, 38.0, 64.0, 25.0)
  const SLOT_ORDER := [("small", SMALL), ("medium", MEDIUM), ("large", LARGE)]

  function Min(a: real, b: real): real { if b < a then b else a }

  function Max(a: real, b: real): real { if b > a then b else a }

  /** The three sides, shortest first. */
  function SortedSides(a: real, b: real, c: real): (real, real, real) {
    var lo, hi := Min(a, b), Max(a, b);
    if c <= lo then (c, lo, hi) else if c <= hi then (lo, c, hi) else (lo, hi, c)
  }

  predicate FitsInSlot(p: Parcel, s: Slot) {
    var (shortest, mid, longest) := SortedSides(p.length, p.width, p.height);
    && p.weight <= s.maxWeight
    && shortest != 0.0 && mid != 0.0 && longest != 0.0
    && shortest <= s.height
    && mid <= Min(s.width, s.depth) && longest <= Max(s.width, s.depth)
  }

  /** An independent reading of "fits in any rotation": one of the six ways of laying the box along the
      axes keeps every side within the slot. */
  ghost predicate Placeable(p: Parcel, s: Slot) {
    exists a, b, c :: Rotation(p, a, b, c) && a <= s.height && b <= s.width && c <= s.depth
  }

  predicate Rotation(p: Parcel, a: real, b: real, c: real) {
    || (a, b, c) == (p.length, p.width, p.height) || (a, b, c) == (p.length, p.height, p.width)
    || (a, b, c) == (p.width, p.length, p.height) || (a, b, c) == (p.width, p.height, p.length)
    || (a, b, c) == (p.height, p.length, p.width) || (a, b, c) == (p.height, p.width, p.length)
  }

  /** Weighed and measured: what the test asks of a parcel before it looks at the box. */
  predicate Shippable(p: Parcel, s: Slot) {
    p.weight <= s.maxWeight && p.length != 0.0 && p.width != 0.0 && p.height != 0.0
  }

  /** Main result, first half: the test never passes a parcel that cannot be put in. */
  lemma FitIsSound(p: Parcel, s: Slot)
    requires FitsInSlot(p, s)
    ensures Placeable(p, s) && Shippable(p, s)
  {
    var (x, y, z) := SortedSides(p.length, p.width, p.height);
    assert Rotation(p, x, y, z) && Rotation(p, x, z, y);
    if s.width <= s.depth {
      assert x <= s.height && y <= s.width && z <= s.depth;
    } else {
      assert x <= s.height && z <= s.width && y <= s.depth;
    }
  }

  predicate HeightIsLeast(s: Slot) { s.height <= Min(s.width, s.depth) }

  /** The answer does not depend on which side is called length, width or height. */
  lemma RotationsSortAlike(p: Parcel, a: real, b: real, c: real)
    requires Rotation(p, a, b, c)
    ensures SortedSides(a, b, c) == SortedSides(p.length, p.width, p.height)
    ensures forall s :: FitsInSlot(Parcel(a, b, c, p.weight), s) <==> FitsInSlot(p, s)
  {
  }

  lemma PlaceableFits(p: Parcel, s: Slot)
    requires HeightIsLeast(s) && Placeable(p, s) && Shippable(p, s)
    ensures FitsInSlot(p, s)
  {
    var a, b, c :| Rotation(p, a, b, c) && a <= s.height && b <= s.width && c <= s.depth;
    RotationsSortAlike(p, a, b, c);
  }

  /** Main result, second half: it passes every parcel that can be put in exactly when the slot is no
      higher than the shorter side of its floor. */
  lemma FitIsCompleteExactly(s: Slot)
    requires s.Valid()
    ensures (forall p :: Placeable(p, s) && Shippable(p, s) ==> FitsInSlot(p, s)) <==> HeightIsLeast(s)
  {
    if HeightIsLeast(s) {
      forall p | Placeable(p, s) && Shippable(p, s) ensures FitsInSlot(p, s) {
        PlaceableFits(p, s);
      }
    } else {
      SlotsOwnBoxIsRejected(s);
    }
  }

  /** A slot higher than its floor is wide rejects a box of its own size. */
  lemma SlotsOwnBoxIsRejected(s: Slot)
    requires s.Valid() && !HeightIsLeast(s)
    ensures var own := Parcel(s.height, s.width, s.depth, s.maxWeight);
            Placeable(own, s) && Shippable(own, s) && !FitsInSlot(own, s)
  {
    assert Rotation(Parcel(s.height, s.width, s.depth, s.maxWeight), s.height, s.width, s.depth);
  }

  /** A parcel no larger and no heavier fits wherever the larger one does. */
  lemma SmallerFits(p: Parcel, q: Parcel, s: Slot)
    requires FitsInSlot(p, s) && Shippable(q, s)
    requires q.length <= p.length && q.width <= p.width && q.height <= p.height
    ensures FitsInSlot(q, s)
  {
  }

  function MidSide(p: Parcel): real { SortedSides(p.length, p.width, p.height).1 }

  /** Which placeable parcels a slot turns away: for every slot no higher than the longer side of its floor,
      exactly those whose middle side is longer than the shorter side of the floor. */
  lemma FitsExactly(p: Parcel, s: Slot)
    requires s.height <= Max(s.width, s.depth)
    ensures FitsInSlot(p, s) <==> Shippable(p, s) && Placeable(p, s) && MidSide(p) <= Min(s.width, s.depth)
  {
    if FitsInSlot(p, s) {
      FitIsSound(p, s);
    }
    if Shippable(p, s) && Placeable(p, s) && MidSide(p) <= Min(s.width, s.depth) {
      PlaceableSidesFit(p, s);
    }
  }

  lemma PlaceableSidesFit(p: Parcel, s: Slot)
    requires s.height <= Max(s.width, s.depth) && Placeable(p, s)
    ensures var (shortest, _, longest) := SortedSides(p.length, p.width, p.height);
            shortest <= s.height && longest <= Max(s.width, s.depth)
  {
    var a, b, c :| Rotation(p, a, b, c) && a <= s.height && b <= s.width && c <= s.depth;
    RotationsSortAlike(p, a, b, c);
  }

  // ---- The picker ------------------------------------------------------------------------------------

  method PickPaczkomatTemplate(p: Parcel) returns (name: Option<string>)
    ensures name == Picked(p)
  {
    for i := 0 to |SLOT_ORDER|
      invariant forall j :: 0 <= j < i ==> !FitsInSlot(p, SLOT_ORDER[j].1)
    {
      if FitsInSlot(p, SLOT_ORDER[i].1) {
        assert (i == 0 || !FitsInSlot(p, SLOT_ORDER[0].1)) && (i <= 1 || !FitsInSlot(p, SLOT_ORDER[1].1));
        return Some(SLOT_ORDER[i].0);
      }
    }
    assert !FitsInSlot(p, SLOT_ORDER[0].1) && !FitsInSlot(p, SLOT_ORDER[1].1) && !FitsInSlot(p, SLOT_ORDER[2].1);
    return None;
  }

  function Picked(p: Parcel): Option<string> {
    if FitsInSlot(p, SMALL) then Some("small")
    else if FitsInSlot(p, MEDIUM) then Some("medium")
    else if FitsInSlot(p, LARGE) then Some("large")
    else None
  }

  /** A placeable parcel the large slot turns away: its middle side is longer than the slot's width. */
  predicate TooWide(p: Parcel) { MidSide(p) > Min(LARGE.width, LARGE.depth) }

  /** Every outcome of the picker, exactly: the smallest slot the parcel can be put into, except that a
      parcel that goes only into the large slot gets it if and only if it is not too wide. */
  lemma PickIsSmallest(p: Parcel)
    requires Shippable(p, SMALL)
    ensures Picked(p) == Some("small") <==> Placeable(p, SMALL)
    ensures Picked(p) == Some("medium") <==> Placeable(p, MEDIUM) && !Placeable(p, SMALL)
    ensures Picked(p) == Some("large") <==> Placeable(p, LARGE) && !Placeable(p, MEDIUM) && !TooWide(p)
    ensures Picked(p) == None <==> !Placeable(p, LARGE) || TooWide(p)
  {
    FitIsCompleteExactly(SMALL);
    FitIsCompleteExactly(MEDIUM);
    FitsExactly(p, SMALL);
    FitsExactly(p, MEDIUM);
    FitsExactly(p, LARGE);
    HigherSlotTakesIt(p, SMALL, MEDIUM);
    HigherSlotTakesIt(p, MEDIUM, LARGE);
  }

  /** What goes into a slot goes into a higher one on the same floor. */
  lemma HigherSlotTakesIt(p: Parcel, s: Slot, t: Slot)
    requires s.width == t.width && s.depth == t.depth && s.height <= t.height
    ensures Placeable(p, s) ==> Placeable(p, t)
  {
    if Placeable(p, s) {
      var a, b, c :| Rotation(p, a, b, c) && a <= s.height && b <= s.width && c <= s.depth;
      assert a <= t.height && b <= t.width && c <= t.depth;
    }
  }

  /** The slots in centimetres: a box filling their common floor, 64 by 38, goes to the small one up to a
      height of 8, to the medium one up to 19, to the large one up to 38, and to none above; nothing over
      25 kg goes anywhere. */
  lemma HeightDecides(height: real, weight: real)
    requires height > 0.0
    ensures var pick := Picked(Parcel(64.0, 38.0, height, weight));
            && (pick == Some("small") <==> weight <= 25.0 && height <= 8.0)
            && (pick == Some("medium") <==> weight <= 25.0 && 8.0 < height <= 19.0)
            && (pick == Some("large") <==> weight <= 25.0 && 19.0 < height <= 38.0)
            && (pick == None <==> weight > 25.0 || height > 38.0)
            && (Placeable(Parcel(64.0, 38.0, height, weight), LARGE) <==> height <= 41.0)
    ensures Picked(Parcel(64.1, 1.0, 1.0, 0.0)) == None && Picked(Parcel(64.0, 38.1, 1.0, 0.0)) == None
  {
    var p := Parcel(64.0, 38.0, height, weight);
    assert Rotation(p, height, 38.0, 64.0);
  }

  /** A parcel that cannot be shipped at all - too heavy, or with a side missing - gets no slot. */
  lemma UnshippableGetsNone(p: Parcel)
    requires !Shippable(p, SMALL)
    ensures Picked(p) == None
  {
    if FitsInSlot(p, SMALL) { FitIsSound(p, SMALL); }
  }

  /** A box of the large slot's own size goes into it and is refused all the same. */
  lemma LargeBoxIsTurnedAway()
    ensures var p := Parcel(64.0, 38.0, 41.0, 25.0);
            Shippable(p, LARGE) && Placeable(p, LARGE) && Picked(p) == None
  {
    SlotsOwnBoxIsRejected(LARGE);
    assert Rotation(Parcel(64.0, 38.0, 41.0, 25.0), 41.0, 38.0, 64.0);
  }
}

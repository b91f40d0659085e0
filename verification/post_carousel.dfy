/**
 * The slot arithmetic of the vertical post carousel: how many card slots
 * it renders for a number of posts, and which post each slot shows.
 */
module PostCarousel {
  import opened Wrappers

  /** Height of one card slot, in pixels. */
  const CardSlotHeight: nat := 340

  /** `Math.ceil(a / b)` on naturals. */
  function CeilDiv(a: nat, b: nat): (q: nat)
    requires b > 0
    ensures q * b >= a && (q == 0 || (q - 1) * b < a)
  {
    (a + b - 1) / b
  }

  /** `Math.ceil(1200 / CARD_SLOT_HEIGHT) + 2`: enough slots to fill the screen with some spare. */
  const MinSlots: nat := CeilDiv(1200, CardSlotHeight) + 2

  /**
   * `getSlotCount`. With no posts the division is by zero and the count is
   * `NaN`, which is `None` here.
   */
  function SlotCount(total: nat): (r: Option<nat>)
    ensures r.Some? <==> total > 0
    ensures total >= 6 ==> r == Some(total)
  {
    if total >= MinSlots then Some(total)
    else if total == 0 then None
    else Some(CeilDiv(MinSlots, total) * total)
  }

  /** For fewer than six posts the count is the smallest multiple of the number of posts that reaches six. */
  lemma FewPostsRepeat(total: nat)
    requires 0 < total < 6
    ensures SlotCount(total).Some?
    ensures SlotCount(total).value % total == 0
    ensures SlotCount(total).value >= 6 && SlotCount(total).value - total < 6
  {
    assert MinSlots == 6;
    if total == 1 {
      assert SlotCount(total).value == 6;
    } else if total == 2 {
      assert SlotCount(total).value == 6;
    } else if total == 3 {
      assert SlotCount(total).value == 6;
    } else if total == 4 {
      assert SlotCount(total).value == 8;
    } else {
      assert SlotCount(total).value == 10;
    }
  }

  lemma ModOfSmaller(i: nat, n: nat)
    requires i < n
    ensures i % n == i
  {
    assert i == 0 * n + i;
  }

  /**
   * The rendered carousel: nothing when there are no posts, otherwise one
   * slot per counted slot, slot `s` showing post `s % total`.
   */
  function Slots(total: nat): (r: Option<seq<nat>>)
    ensures r.Some? <==> total > 0
    ensures r.Some? ==> |r.value| == SlotCount(total).value
    ensures r.Some? ==> forall s :: 0 <= s < |r.value| ==> r.value[s] < total
  {
    match SlotCount(total)
    case None => None
    case Some(n) => Some(seq(n, s => s % total))
  }

  /** Every post is shown by some slot. */
  lemma EveryPostShown(total: nat)
    requires total > 0
    ensures forall i :: 0 <= i < total ==> i in Slots(total).value
  {
    var slots := Slots(total).value;
    assert |slots| >= total by {
      if total < 6 {
        FewPostsRepeat(total);
      }
    }
    forall i | 0 <= i < total
      ensures i in slots
    {
      ModOfSmaller(i, total);
      assert slots[i] == i;
    }
  }
}

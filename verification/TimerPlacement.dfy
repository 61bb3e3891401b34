/** Slot arithmetic of the hierarchical timing wheel.

    The five slot vectors are numbered end to end: m_Vector1 owns slots 0..255 (one tick each), and
    m_Vector2..m_Vector5 own 64 slots each, one block of 2^8, 2^14, 2^20 and 2^26 ticks per slot.
    `last` is m_LastTimeval, the next tick the wheel will fire. */
module TimerPlacement {
  const TVR_SIZE := 256
  const TVN_SIZE := 64
  const SLOTS := 512
  const MAX_TVAL := 0xFFFF_FFFF

  // first slot of each vector
  const VECTOR2 := 256
  const VECTOR3 := 320
  const VECTOR4 := 384
  const VECTOR5 := 448

  /** The tick for which an item is filed: the deadline itself, the current tick when the deadline has
      passed, or the furthest representable tick when it lies beyond the wheel. */
  function FiledTick(timeval: nat, last: nat): nat {
    if timeval < last then last else if timeval - last > MAX_TVAL then last + MAX_TVAL else timeval
  }

  /** The tick at which an item linked now must fire. */
  function DueTick(timeval: nat, last: nat): nat {
    if timeval < last then last else timeval
  }

  /** `slot` is the slot of `block` in a 64-slot vector starting at `base`, and `block` is one of the 64
      blocks the vector covers when its first unread block is `first`. */
  predicate InVector(slot: nat, base: nat, block: nat, first: nat) {
    && first <= block < first + TVN_SIZE
    && slot == base + block % TVN_SIZE
  }

  /** Placement invariant of one item: filed at tick `filed`, due at tick `due`. Every coarse vector covers
      the 64 blocks from the first block boundary at or after `last`. */
  predicate Placed(slot: nat, filed: nat, timeval: nat, due: nat, last: nat) {
    && last <= due
    && (slot < VECTOR2 ==> filed == due && timeval <= due <= last + 255 && slot == due % 256)
    && (VECTOR2 <= slot ==> timeval == due)
    && (VECTOR2 <= slot < VECTOR3 ==> filed == due && InVector(slot, VECTOR2, filed / 0x100, (last + 0xFF) / 0x100))
    && (VECTOR3 <= slot < VECTOR4 ==> filed == due && InVector(slot, VECTOR3, filed / 0x4000, (last + 0x3FFF) / 0x4000))
    && (VECTOR4 <= slot < VECTOR5 ==>
       filed == due && InVector(slot, VECTOR4, filed / 0x10_0000, (last + 0xF_FFFF) / 0x10_0000))
    && (VECTOR5 <= slot ==>
       filed <= due && InVector(slot, VECTOR5, filed / 0x400_0000, (last + 0x3FF_FFFF) / 0x400_0000))
    && slot < SLOTS
  }

  /** The vector an item belongs to depends on its distance from `last` only. */
  predicate RightVector(slot: nat, timeval: nat, last: nat) {
    var distance := if timeval < last then 0 else timeval - last;
    && (slot < VECTOR2 <==> distance < 0x100)
    && (slot < VECTOR3 <==> distance < 0x4000)
    && (slot < VECTOR4 <==> distance < 0x10_0000)
    && (slot < VECTOR5 <==> distance < 0x400_0000)
  }

  /** Which slot the current tick drains in each vector. */
  function DrainSlot2(last: nat): nat { VECTOR2 + last / 0x100 % TVN_SIZE }
  function DrainSlot3(last: nat): nat { VECTOR3 + last / 0x4000 % TVN_SIZE }
  function DrainSlot4(last: nat): nat { VECTOR4 + last / 0x10_0000 % TVN_SIZE }
  function DrainSlot5(last: nat): nat { VECTOR5 + last / 0x400_0000 % TVN_SIZE }

  /** An item sits in a slot that the tick `last` has to drain. */
  predicate MustDrain(slot: nat, last: nat) {
    || (last % 0x100 == 0 && slot == DrainSlot2(last))
    || (last % 0x4000 == 0 && slot == DrainSlot3(last))
    || (last % 0x10_0000 == 0 && slot == DrainSlot4(last))
    || (last % 0x400_0000 == 0 && slot == DrainSlot5(last))
  }

  /** The slot an item linked at `last` goes to. */
  function SlotFor(timeval: nat, last: nat): (slot: nat)
    ensures RightVector(slot, timeval, last)
    ensures slot < SLOTS
  {
    var filed := FiledTick(timeval, last);
    if filed - last < 0x100 then filed % 0x100
    else if filed - last < 0x4000 then VECTOR2 + filed / 0x100 % TVN_SIZE
    else if filed - last < 0x10_0000 then VECTOR3 + filed / 0x4000 % TVN_SIZE
    else if filed - last < 0x400_0000 then VECTOR4 + filed / 0x10_0000 % TVN_SIZE
    else VECTOR5 + filed / 0x400_0000 % TVN_SIZE
  }

  /** Linking establishes the placement invariant, and never uses a slot the current tick still drains. */
  lemma LinkedIsPlaced(timeval: nat, last: nat)
    ensures Placed(SlotFor(timeval, last), FiledTick(timeval, last), timeval, DueTick(timeval, last), last)
    ensures !MustDrain(SlotFor(timeval, last), last)
  {
    var filed := FiledTick(timeval, last);
    var d := filed - last;
    if d < 0x100 {
    } else if d < 0x4000 {
      BlockAhead2(filed, last);
    } else if d < 0x10_0000 {
      BlockAhead3(filed, last);
    } else if d < 0x400_0000 {
      BlockAhead4(filed, last);
    } else {
      BlockAhead5(filed, last);
    }
  }

  lemma BlockAhead2(tick: nat, last: nat)
    requires last + 0x100 <= tick < last + 0x4000
    ensures InVector(VECTOR2 + tick / 0x100 % TVN_SIZE, VECTOR2, tick / 0x100, (last + 0xFF) / 0x100)
    ensures last % 0x100 == 0 ==> VECTOR2 + tick / 0x100 % TVN_SIZE != DrainSlot2(last)
  {
  }

  lemma BlockAhead3(tick: nat, last: nat)
    requires last + 0x4000 <= tick < last + 0x10_0000
    ensures InVector(VECTOR3 + tick / 0x4000 % TVN_SIZE, VECTOR3, tick / 0x4000, (last + 0x3FFF) / 0x4000)
    ensures last % 0x4000 == 0 ==> VECTOR3 + tick / 0x4000 % TVN_SIZE != DrainSlot3(last)
  {
  }

  lemma BlockAhead4(tick: nat, last: nat)
    requires last + 0x10_0000 <= tick < last + 0x400_0000
    ensures InVector(VECTOR4 + tick / 0x10_0000 % TVN_SIZE, VECTOR4, tick / 0x10_0000, (last + 0xF_FFFF) / 0x10_0000)
    ensures last % 0x10_0000 == 0 ==> VECTOR4 + tick / 0x10_0000 % TVN_SIZE != DrainSlot4(last)
  {
  }

  lemma BlockAhead5(tick: nat, last: nat)
    requires last + 0x400_0000 <= tick <= last + MAX_TVAL
    ensures InVector(VECTOR5 + tick / 0x400_0000 % TVN_SIZE, VECTOR5, tick / 0x400_0000,
            (last + 0x3FF_FFFF) / 0x400_0000)
    ensures last % 0x400_0000 == 0 ==> VECTOR5 + tick / 0x400_0000 % TVN_SIZE != DrainSlot5(last)
  {
  }

  /** What the current tick drains from vectors 2..4 is due within one block of that vector, so relinking
      moves it to a finer vector; vector 5 keeps only what is still 2^26 ticks away. */
  lemma DrainDescends(slot: nat, filed: nat, timeval: nat, due: nat, last: nat)
    requires Placed(slot, filed, timeval, due, last)
    requires MustDrain(slot, last)
    ensures VECTOR2 <= slot && timeval == due && last <= timeval
    ensures slot < VECTOR3 ==> SlotFor(timeval, last) < VECTOR2
    ensures slot < VECTOR4 ==> SlotFor(timeval, last) < VECTOR3
    ensures slot < VECTOR5 ==> SlotFor(timeval, last) < VECTOR4
    ensures VECTOR5 <= SlotFor(timeval, last) <==> last + 0x400_0000 <= due
  {
    if slot == DrainSlot2(last) {
      SameBlock2(filed, last, slot);
    } else if slot == DrainSlot3(last) {
      SameBlock3(filed, last, slot);
    } else if slot == DrainSlot4(last) {
      SameBlock4(filed, last, slot);
    }
  }

  lemma SameBlock2(tick: nat, last: nat, slot: nat)
    requires last % 0x100 == 0 && slot == DrainSlot2(last)
    requires InVector(slot, VECTOR2, tick / 0x100, (last + 0xFF) / 0x100)
    ensures tick < last + 0x100
  {
  }

  lemma SameBlock3(tick: nat, last: nat, slot: nat)
    requires last % 0x4000 == 0 && slot == DrainSlot3(last)
    requires InVector(slot, VECTOR3, tick / 0x4000, (last + 0x3FFF) / 0x4000)
    ensures tick < last + 0x4000
  {
  }

  lemma SameBlock4(tick: nat, last: nat, slot: nat)
    requires last % 0x10_0000 == 0 && slot == DrainSlot4(last)
    requires InVector(slot, VECTOR4, tick / 0x10_0000, (last + 0xF_FFFF) / 0x10_0000)
    ensures tick < last + 0x10_0000
  {
  }

  /** Once a tick has drained its coarse slots and detached its fine one, every other item is placed
      correctly for the next tick. */
  lemma TickKeepsPlaced(slot: nat, filed: nat, timeval: nat, due: nat, last: nat)
    requires Placed(slot, filed, timeval, due, last)
    requires !MustDrain(slot, last)
    requires slot != last % 256
    ensures Placed(slot, filed, timeval, due, last + 1)
  {
    if slot < VECTOR2 {
    } else if slot < VECTOR3 {
      NextWindow2(filed, last, slot);
    } else if slot < VECTOR4 {
      NextWindow3(filed, last, slot);
    } else if slot < VECTOR5 {
      NextWindow4(filed, last, slot);
    } else {
      NextWindow5(filed, last, slot);
    }
  }

  lemma NextWindow2(tick: nat, last: nat, slot: nat)
    requires InVector(slot, VECTOR2, tick / 0x100, (last + 0xFF) / 0x100)
    requires last % 0x100 == 0 ==> slot != DrainSlot2(last)
    ensures InVector(slot, VECTOR2, tick / 0x100, (last + 1 + 0xFF) / 0x100) && last < tick
  {
  }

  lemma NextWindow3(tick: nat, last: nat, slot: nat)
    requires InVector(slot, VECTOR3, tick / 0x4000, (last + 0x3FFF) / 0x4000)
    requires last % 0x4000 == 0 ==> slot != DrainSlot3(last)
    ensures InVector(slot, VECTOR3, tick / 0x4000, (last + 1 + 0x3FFF) / 0x4000) && last < tick
  {
  }

  lemma NextWindow4(tick: nat, last: nat, slot: nat)
    requires InVector(slot, VECTOR4, tick / 0x10_0000, (last + 0xF_FFFF) / 0x10_0000)
    requires last % 0x10_0000 == 0 ==> slot != DrainSlot4(last)
    ensures InVector(slot, VECTOR4, tick / 0x10_0000, (last + 1 + 0xF_FFFF) / 0x10_0000) && last < tick
  {
  }

  lemma NextWindow5(tick: nat, last: nat, slot: nat)
    requires InVector(slot, VECTOR5, tick / 0x400_0000, (last + 0x3FF_FFFF) / 0x400_0000)
    requires last % 0x400_0000 == 0 ==> slot != DrainSlot5(last)
    ensures InVector(slot, VECTOR5, tick / 0x400_0000, (last + 1 + 0x3FF_FFFF) / 0x400_0000) && last < tick
  {
  }

  /** The fine slot of the current tick holds exactly what is due at it. */
  lemma CurrentSlotIsDue(slot: nat, filed: nat, timeval: nat, due: nat, last: nat)
    requires Placed(slot, filed, timeval, due, last)
    requires !MustDrain(slot, last)
    ensures slot == last % 256 <==> due == last
  {
    if slot >= VECTOR2 {
      TickKeepsPlaced(slot, filed, timeval, due, last);
    }
  }

  /** A vector wraps to index 0 exactly when the tick is aligned for the next coarser vector. */
  lemma WrapIsAlignment(last: nat)
    ensures last % 0x4000 == 0 <==> last % 0x100 == 0 && last / 0x100 % TVN_SIZE == 0
    ensures last % 0x10_0000 == 0 <==> last % 0x4000 == 0 && last / 0x4000 % TVN_SIZE == 0
    ensures last % 0x400_0000 == 0 <==> last % 0x10_0000 == 0 && last / 0x10_0000 % TVN_SIZE == 0
  {
    Wrap2(last);
    Wrap3(last);
    Wrap4(last);
  }

  lemma Wrap2(last: nat)
    ensures last % 0x4000 == 0 <==> last % 0x100 == 0 && last / 0x100 % 64 == 0
  {
    var block, rest := last / 0x4000, last % 0x4000;
    assert last / 0x100 == 64 * block + rest / 0x100;
    assert last % 0x100 == rest % 0x100;
  }

  lemma Wrap3(last: nat)
    ensures last % 0x10_0000 == 0 <==> last % 0x4000 == 0 && last / 0x4000 % 64 == 0
  {
    var block, rest := last / 0x10_0000, last % 0x10_0000;
    assert last / 0x4000 == 64 * block + rest / 0x4000;
    assert last % 0x4000 == rest % 0x4000;
  }

  lemma Wrap4(last: nat)
    ensures last % 0x400_0000 == 0 <==> last % 0x10_0000 == 0 && last / 0x10_0000 % 64 == 0
  {
    var block, rest := last / 0x400_0000, last % 0x400_0000;
    assert last / 0x10_0000 == 64 * block + rest / 0x10_0000;
    assert last % 0x10_0000 == rest % 0x10_0000;
  }

  lemma SlotsToDrain(last: nat)
    ensures last % 0x100 == 0 ==> MustDrain(DrainSlot2(last), last)
    ensures last % 0x4000 == 0 ==> MustDrain(DrainSlot3(last), last)
    ensures last % 0x10_0000 == 0 ==> MustDrain(DrainSlot4(last), last)
    ensures last % 0x400_0000 == 0 ==> MustDrain(DrainSlot5(last), last)
  {
  }

  lemma DrainSlots(slot: nat, last: nat)
    requires MustDrain(slot, last)
    ensures last % 0x100 == 0
    ensures slot == DrainSlot2(last) || (slot == DrainSlot3(last) && last % 0x4000 == 0)
         || (slot == DrainSlot4(last) && last % 0x10_0000 == 0) || (slot == DrainSlot5(last) && last % 0x400_0000 == 0)
  {
  }
}

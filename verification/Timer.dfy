/** The hierarchical timing wheel itself: intrusive doubly linked slot lists, an id map, and a tick loop whose
    callbacks may set, move and clear timers while a detached list is being fired. */
module TimingWheel {
  import opened TimerPlacement
  import opened TimerSpec

  // ghost number of the list that cascade or CheckTimer has cut off a slot and is walking
  const DETACHED := SLOTS

  class TimerItem {
    var PrevItem: TimerItem?
    var NextItem: TimerItem?
    var Base: int            // the slot whose head cell the item hangs from; -1 for NULL
    var TimerId: nat
    var Timeval: nat

    ghost var List: nat      // the list threading the item: its slot, or DETACHED
    ghost var Rank: nat      // decreases along every list
    ghost var Filed: nat     // the tick its slot was computed from
    ghost var Due: nat       // the tick at which it fires

    constructor (timerId: nat, timeval: nat)
      ensures TimerId == timerId && Timeval == timeval
      ensures PrevItem == null && NextItem == null && Base == -1
    {
      PrevItem, NextItem, Base := null, null, -1;
      TimerId, Timeval := timerId, timeval;
    }
  }

  /** What has been invoked: every callback that ran, in order. */
  class Journal {
    ghost var Firings: seq<Firing>

    constructor ()
      ensures Firings == []
    {
      Firings := [];
    }
  }

  class Timer {
    const Interval: Interval
    var m_LastTimerId: nat
    var m_LastTimeval: nat
    const m_Vector: array<TimerItem?>   // the five slot vectors, end to end
    var m_TimerDataMap: map<nat, TimerItem>

    const Invoked: Journal

    ghost var Pending: map<nat, nat>    // the tick at which every live timer fires
    ghost var Linked: set<TimerItem>    // the items threaded on some list
    ghost var Stamp: nat                // above every rank in use
    ghost var Walk: TimerItem?          // first item of the detached list
    ghost var Current: TimerItem?       // the item whose callback is running

    /** An empty wheel, at the clock reading of its creation. */
    constructor (interval: Interval, now: nat)
      ensures Valid() && Idle() && fresh(m_Vector) && fresh(Invoked) && Invoked.Firings == []
      ensures View() == Flat(interval, now, 0, map[])
    {
      Interval := interval;
      m_LastTimerId, m_LastTimeval := 0, now;
      m_Vector := new TimerItem?[SLOTS](_ => null);
      Invoked := new Journal();
      m_TimerDataMap, Pending := map[], map[];
      Linked, Stamp, Walk, Current := {}, 0, null, null;
    }

    // ----- heap integrity

    ghost function Running(): set<TimerItem>
      reads `Current
    {
      if Current == null then {} else {Current}
    }

    ghost predicate Threaded(x: TimerItem)
      requires m_Vector.Length == SLOTS
      reads `Linked, `Stamp, `Walk, m_Vector
      reads Linked`NextItem, Linked`PrevItem, Linked`List, Linked`Rank, Linked`Base
      reads x`NextItem, x`PrevItem, x`List, x`Rank, x`Base
    {
      && x.List <= DETACHED
      && x.Rank < Stamp
      && (x.List < DETACHED ==> x.Base == x.List)
      && (x.NextItem != null ==>
            var next := x.NextItem;
            next in Linked && next.PrevItem == x && next.List == x.List && next.Rank < x.Rank && next != Walk)
      && (x.List < DETACHED ==>
            if x.PrevItem == null then m_Vector[x.List] == x else x.PrevItem in Linked && x.PrevItem.NextItem == x)
      && (x.List == DETACHED && x != Walk ==> x.PrevItem != null && x.PrevItem in Linked && x.PrevItem.NextItem == x)
    }

    /** Every linked item is on the list its ghost number names, links are mutually inverse, an item without a
        predecessor is the head of its slot, and ranks make every list acyclic. */
    ghost predicate Shape()
      reads `Linked, `Stamp, `Walk, `Current, m_Vector
      reads Linked`NextItem, Linked`PrevItem, Linked`List, Linked`Rank, Linked`Base
      reads Running()`NextItem, Running()`Rank
    {
      && m_Vector.Length == SLOTS
      && (forall x {:trigger Threaded(x)} :: x in Linked ==> Threaded(x))
      && (forall s :: 0 <= s < SLOTS && m_Vector[s] != null ==>
            m_Vector[s] in Linked && m_Vector[s].List == s && m_Vector[s].PrevItem == null)
      && (Walk != null ==> Walk in Linked && Walk.List == DETACHED)
      && (Current != null ==>
            && Current !in Linked && Current.NextItem == Walk
            && (Walk != null ==> Walk.PrevItem == Current && Walk.Rank < Current.Rank))
    }

    ghost predicate PlacedItem(x: TimerItem)
      reads `m_LastTimeval, x`List, x`Filed, x`Timeval, x`Due
    {
      x.List < DETACHED ==> Placed(x.List, x.Filed, x.Timeval, x.Due, m_LastTimeval)
    }

    ghost predicate AllPlaced()
      reads `m_LastTimeval, `Linked, Linked`List, Linked`Filed, Linked`Timeval, Linked`Due
    {
      forall x {:trigger PlacedItem(x)} :: x in Linked ==> PlacedItem(x)
    }

    /** Everything on the detached list is due at `tick`. */
    ghost predicate DetachedDue(tick: int)
      reads `Linked, Linked`List, Linked`Due
    {
      forall x :: x in Linked && x.List == DETACHED ==> x.Due == tick
    }

    /** The id map holds exactly the linked items, under their ids, and Pending tells their ticks. */
    ghost predicate Mapped()
      reads `m_TimerDataMap, `m_LastTimerId, `Linked, `Pending, Linked`TimerId, Linked`Due
    {
      && Pending.Keys == m_TimerDataMap.Keys
      && (forall id :: id in m_TimerDataMap ==>
            && id <= m_LastTimerId && m_TimerDataMap[id] in Linked
            && m_TimerDataMap[id].TimerId == id && m_TimerDataMap[id].Due == Pending[id])
      && (forall x :: x in Linked ==> x.TimerId in m_TimerDataMap && m_TimerDataMap[x.TimerId] == x)
    }

    ghost function View(): Flat
      reads `m_LastTimeval, `m_LastTimerId, `Pending
    {
      Flat(Interval, m_LastTimeval, m_LastTimerId, Pending)
    }

    ghost function Cells(): set<object>
      reads this
    {
      {this, m_Vector} + Linked + Running()
    }

    /** Holds between calls and whenever a callback runs: a sound wheel, of which only the timers of the tick
        being fired are cut off their slot. */
    ghost predicate Valid()
      reads this, m_Vector, Linked, Current
    {
      && Shape() && AllPlaced() && Mapped()
      && DetachedDue(m_LastTimeval - 1)
      && (Walk != null ==> Current != null)
    }

    /** No CheckTimer is in progress. */
    ghost predicate Idle()
      reads this
    {
      Walk == null && Current == null
    }

    // ----- InternalAddTimerItem

    method InternalAddTimerItem(pItem: TimerItem)
      requires Shape() && pItem !in Linked && pItem != Current
      requires pItem.PrevItem == null && pItem.NextItem == null
      modifies this`Linked, this`Stamp, m_Vector, pItem, Linked`PrevItem
      ensures Shape() && Linked == old(Linked) + {pItem}
      ensures pItem.TimerId == old(pItem.TimerId) && pItem.Timeval == old(pItem.Timeval)
      ensures pItem.List == SlotFor(pItem.Timeval, m_LastTimeval)
      ensures pItem.Filed == FiledTick(pItem.Timeval, m_LastTimeval)
      ensures pItem.Due == DueTick(pItem.Timeval, m_LastTimeval)
      ensures m_Vector[pItem.List] == pItem && pItem.NextItem == old(m_Vector[SlotFor(pItem.Timeval, m_LastTimeval)])
      ensures forall s :: 0 <= s < SLOTS && s != pItem.List ==> m_Vector[s] == old(m_Vector[s])
      ensures old(Stamp) <= Stamp
    {
      var vector: nat;
      if pItem.Timeval < m_LastTimeval {
        vector := m_LastTimeval % TVR_SIZE;
      } else {
        var idx := pItem.Timeval - m_LastTimeval;
        if idx < TVR_SIZE {
          vector := pItem.Timeval % TVR_SIZE;
        } else if idx < 0x4000 {
          vector := VECTOR2 + pItem.Timeval / 0x100 % TVN_SIZE;
        } else if idx < 0x10_0000 {
          vector := VECTOR3 + pItem.Timeval / 0x4000 % TVN_SIZE;
        } else if idx < 0x400_0000 {
          vector := VECTOR4 + pItem.Timeval / 0x10_0000 % TVN_SIZE;
        } else {
          var tv := pItem.Timeval;
          if idx > MAX_TVAL {
            tv := MAX_TVAL + m_LastTimeval;
          }
          vector := VECTOR5 + tv / 0x400_0000 % TVN_SIZE;
        }
      }
      assert vector == SlotFor(pItem.Timeval, m_LastTimeval);
      pItem.Filed, pItem.Due := FiledTick(pItem.Timeval, m_LastTimeval), DueTick(pItem.Timeval, m_LastTimeval);
      PushFront(pItem, vector);
    }

    /** pItem was put in front of the slot its ghost number names, and nothing else was relinked. */
    twostate predicate Pushed(pItem: TimerItem)
      requires m_Vector.Length == SLOTS
      reads this, m_Vector, Linked, pItem
    {
      var vector := pItem.List;
      && pItem !in old(Linked) && Linked == old(Linked) + {pItem} && pItem != Current
      && Walk == old(Walk) && Current == old(Current)
      && vector == pItem.Base < SLOTS && pItem.Rank == old(Stamp) < Stamp
      && pItem.PrevItem == null && pItem.NextItem == old(m_Vector[vector]) && m_Vector[vector] == pItem
      && (forall s :: 0 <= s < SLOTS && s != vector ==> m_Vector[s] == old(m_Vector[s]))
      && (forall y :: y in old(Linked) ==>
            && y in Linked
            && y.List == old(y.List) && y.Rank == old(y.Rank) && y.Base == old(y.Base)
            && y.NextItem == old(y.NextItem)
            && y.PrevItem == (if y == pItem.NextItem then pItem else old(y.PrevItem)))
    }

    twostate lemma PushedShape(pItem: TimerItem)
      requires old(Shape()) && Pushed(pItem)
      requires Current != null ==> Current.NextItem == old(Current.NextItem) && Current.Rank == old(Current.Rank)
      ensures Shape()
    {
      forall x | x in Linked
        ensures Threaded(x)
      {
        if x != pItem {
          assert old(Threaded(x));
        } else if x.NextItem != null {
          ghost var head := x.NextItem;
          assert old(Threaded(head));
        }
      }
    }

    method PushFront(pItem: TimerItem, vector: nat)
      requires Shape() && pItem !in Linked && pItem != Current && vector < SLOTS
      requires pItem.PrevItem == null && pItem.NextItem == null
      modifies this`Linked, this`Stamp, m_Vector, pItem`NextItem, pItem`Base, pItem`List, pItem`Rank, Linked`PrevItem
      ensures Shape() && Linked == old(Linked) + {pItem}
      ensures pItem.List == vector == pItem.Base && m_Vector[vector] == pItem && pItem.NextItem == old(m_Vector[vector])
      ensures forall s :: 0 <= s < SLOTS && s != vector ==> m_Vector[s] == old(m_Vector[s])
      ensures old(Stamp) <= Stamp
    {
      pItem.Base := vector;
      pItem.List, pItem.Rank := vector, Stamp;
      Stamp := Stamp + 1;
      if m_Vector[vector] == null {
        m_Vector[vector] := pItem;
      } else {
        pItem.NextItem := m_Vector[vector];
        m_Vector[vector].PrevItem := pItem;
        m_Vector[vector] := pItem;
      }
      Linked := Linked + {pItem};
      PushedShape(pItem);
    }

    // ----- Update, Clear, SetTimeout

    /** pItem was taken off its list, and nothing else was relinked. */
    twostate predicate Unlinked(pItem: TimerItem)
      requires m_Vector.Length == SLOTS
      reads this, m_Vector, Linked, pItem
    {
      && pItem in old(Linked) && Linked == old(Linked) - {pItem}
      && Current == old(Current) && Stamp == old(Stamp)
      && Walk == (if pItem == old(Walk) then pItem.NextItem else old(Walk))
      && pItem.List == old(pItem.List)
      && pItem.PrevItem == old(pItem.PrevItem) && pItem.NextItem == old(pItem.NextItem)
      && (forall s :: 0 <= s < SLOTS ==>
            m_Vector[s] == (if s == pItem.List && pItem.PrevItem == null then pItem.NextItem else old(m_Vector[s])))
      && (forall y :: y in old(Linked) && y != pItem ==>
            && y.List == old(y.List) && y.Rank == old(y.Rank) && y.Base == old(y.Base)
            && y.NextItem == (if y == pItem.PrevItem then pItem.NextItem else old(y.NextItem))
            && y.PrevItem == (if y == pItem.NextItem then pItem.PrevItem else old(y.PrevItem)))
    }

    twostate lemma UnlinkedShape(pItem: TimerItem)
      requires old(Shape()) && old(Walk != null ==> Current != null) && Unlinked(pItem)
      requires Current != null ==> Current.NextItem == Walk && Current.Rank == old(Current.Rank)
      ensures Shape()
    {
      assert old(Threaded(pItem));
      if pItem.NextItem != null {
        ghost var next := pItem.NextItem;
        assert old(Threaded(next));
      }
      forall x | x in Linked
        ensures Threaded(x)
      {
        assert old(Threaded(x));
      }
    }

    lemma LinksOf(x: TimerItem)
      requires Shape() && x in Linked && (Walk != null ==> Current != null)
      ensures m_Vector.Length == SLOTS && Current !in Linked
      ensures x.NextItem != null ==> x.NextItem in Linked && x.NextItem != x
      ensures x.PrevItem == null ==> 0 <= x.Base < SLOTS && x.Base == x.List && x != Walk
      ensures x.PrevItem != null ==> x.PrevItem in Linked + Running() && x.PrevItem != x.NextItem
      ensures x == Walk <==> x.PrevItem != null && x.PrevItem == Current
      ensures Current != null ==> Current.NextItem == Walk
    {
      assert Threaded(x);
      if x.NextItem != null {
        assert Threaded(x.NextItem);
      }
    }

    method Unlink(pItem: TimerItem)
      requires Shape() && pItem in Linked
      requires Walk != null ==> Current != null
      modifies this`Linked, this`Walk, m_Vector, Linked`PrevItem, Linked`NextItem, pItem`Base, Running()`NextItem
      ensures Shape() && Linked == old(Linked) - {pItem}
      ensures pItem.PrevItem == null && pItem.NextItem == null
      ensures Walk != null ==> Current != null
    {
      hide Shape, Threaded;
      LinksOf(pItem);
      if pItem.NextItem != null {
        pItem.NextItem.PrevItem := pItem.PrevItem;
      }
      if pItem.PrevItem != null {
        pItem.PrevItem.NextItem := pItem.NextItem;
      } else {
        m_Vector[pItem.Base] := pItem.NextItem;
      }
      if pItem == Walk {
        Walk := pItem.NextItem;
      }
      Linked := Linked - {pItem};
      UnlinkedShape(pItem);
      pItem.PrevItem, pItem.NextItem, pItem.Base := null, null, -1;
    }

    /** What the items other than pItem show to the clock and to the id map is unchanged. */
    twostate predicate OthersKept(pItem: TimerItem)
      reads this, Linked
    {
      && m_LastTimeval == old(m_LastTimeval)
      && (forall y :: y in Linked && y != pItem ==>
            && y in old(Linked)
            && y.TimerId == old(y.TimerId) && y.Timeval == old(y.Timeval) && y.List == old(y.List)
            && y.Filed == old(y.Filed) && y.Due == old(y.Due))
    }

    /** Giving pItem a deadline: in the flat view, one pending timer is set. */
    twostate lemma SetInView(pItem: TimerItem)
      requires old(AllPlaced() && Mapped() && DetachedDue(m_LastTimeval - 1))
      requires OthersKept(pItem) && Linked == old(Linked) + {pItem}
      requires m_TimerDataMap == old(m_TimerDataMap)[pItem.TimerId := pItem] && old(m_LastTimerId) <= m_LastTimerId
      requires pItem.TimerId <= m_LastTimerId
      requires pItem.TimerId !in old(m_TimerDataMap) || old(m_TimerDataMap)[pItem.TimerId] == pItem
      requires pItem !in old(Linked) || pItem.TimerId == old(pItem.TimerId)
      requires pItem.List == SlotFor(pItem.Timeval, m_LastTimeval)
      requires pItem.Filed == FiledTick(pItem.Timeval, m_LastTimeval)
               && pItem.Due == DueTick(pItem.Timeval, m_LastTimeval)
      requires Pending == old(Pending)[pItem.TimerId := pItem.Due]
      ensures AllPlaced() && Mapped() && DetachedDue(m_LastTimeval - 1)
    {
      LinkedIsPlaced(pItem.Timeval, m_LastTimeval);
      forall x | x in Linked
        ensures PlacedItem(x)
      {
        assert x != pItem ==> old(PlacedItem(x));
      }
    }

    /** Dropping pItem: in the flat view, one pending timer disappears. */
    twostate lemma DroppedFromView(pItem: TimerItem)
      requires old(AllPlaced() && Mapped() && DetachedDue(m_LastTimeval - 1)) && pItem in old(Linked)
      requires OthersKept(pItem) && Linked == old(Linked) - {pItem}
      requires m_TimerDataMap == old(m_TimerDataMap) - {old(pItem.TimerId)} && old(m_LastTimerId) == m_LastTimerId
      requires Pending == old(Pending) - {old(pItem.TimerId)}
      ensures AllPlaced() && Mapped() && DetachedDue(m_LastTimeval - 1)
    {
      forall x | x in Linked
        ensures PlacedItem(x)
      {
        assert old(PlacedItem(x));
      }
    }

    lemma Lookup(timerId: nat)
      requires Shape() && Mapped() && timerId in m_TimerDataMap
      ensures m_TimerDataMap[timerId] in Linked && m_TimerDataMap[timerId].TimerId == timerId
      ensures Current != m_TimerDataMap[timerId] && m_Vector.Length == SLOTS
      ensures timerId in Pending && timerId <= m_LastTimerId
    {
    }

    method Update(timerId: nat, timeout: int, now: nat)
      requires Valid()
      modifies Cells()
      ensures Valid() && Current == old(Current) && Linked == old(Linked)
      ensures Current != null ==> Current.Rank == old(Current.Rank)
      ensures View() == Apply(old(View()), Command.Update(now, timerId, timeout))
      ensures timerId in old(Pending) ==>
                timerId in Pending && SetFor(Interval, now, timeout, m_LastTimeval, Pending[timerId])
    {
      hide SlotFor, FiledTick, DueTick, Deadline, SetFor, Shape, AllPlaced, Mapped, DetachedDue, OthersKept;
      if timerId !in m_TimerDataMap {
        Unknown(timerId);
        return;
      }
      Lookup(timerId);
      SetForTimeout(Interval, now, timeout, m_LastTimeval);
      Refile(m_TimerDataMap[timerId], Deadline(now, timeout, Interval));
    }

    /** Takes an item off its list and files it under a new deadline. */
    method Refile(pItem: TimerItem, timeval: nat)
      requires Valid() && pItem in Linked && pItem.TimerId in m_TimerDataMap && m_TimerDataMap[pItem.TimerId] == pItem
      requires pItem != Current && pItem.TimerId <= m_LastTimerId
      modifies Cells()
      ensures Valid() && Current == old(Current) && Linked == old(Linked)
      ensures Current != null ==> Current.Rank == old(Current.Rank)
      ensures m_LastTimeval == old(m_LastTimeval) && m_LastTimerId == old(m_LastTimerId)
      ensures Pending == old(Pending)[old(pItem.TimerId) := DueTick(timeval, m_LastTimeval)]
    {
      hide SlotFor, FiledTick, DueTick, Shape, AllPlaced, Mapped, DetachedDue, OthersKept;
      Unlink(pItem);
      pItem.Timeval := timeval;
      Pending := Pending[pItem.TimerId := DueTick(pItem.Timeval, m_LastTimeval)];
      InternalAddTimerItem(pItem);
      SetInView(pItem);
    }

    lemma Unknown(timerId: nat)
      requires Mapped() && timerId !in m_TimerDataMap
      ensures timerId !in Pending && Pending - {timerId} == Pending
    {
    }

    method Clear(timerId: nat)
      requires Valid()
      modifies Cells()
      ensures Valid() && Current == old(Current) && Linked <= old(Linked)
      ensures Current != null ==> Current.Rank == old(Current.Rank)
      ensures View() == Apply(old(View()), Command.Clear(timerId))
    {
      hide SlotFor, FiledTick, DueTick, Deadline, Shape, AllPlaced, Mapped, DetachedDue, OthersKept;
      if timerId !in m_TimerDataMap {
        Unknown(timerId);
        return;
      }
      Lookup(timerId);
      var pItem := m_TimerDataMap[timerId];
      Unlink(pItem);
      m_TimerDataMap, Pending := m_TimerDataMap - {timerId}, Pending - {timerId};
      DroppedFromView(pItem);
    }

    method SetTimeout(timeout: int, now: nat) returns (timerId: nat)
      requires Valid()
      modifies Cells()
      ensures Valid() && Current == old(Current) && fresh(Linked - old(Linked))
      ensures Current != null ==> Current.Rank == old(Current.Rank)
      ensures timerId == old(m_LastTimerId) + 1
      ensures View() == Apply(old(View()), Command.SetTimeout(now, timeout))
      ensures timerId in Pending && SetFor(Interval, now, timeout, m_LastTimeval, Pending[timerId])
    {
      hide SlotFor, FiledTick, DueTick, Deadline, SetFor, Shape, AllPlaced, Mapped, DetachedDue;
      m_LastTimerId := m_LastTimerId + 1;
      NextIdIsFree();
      SetForTimeout(Interval, now, timeout, m_LastTimeval);
      var pItem := new TimerItem(m_LastTimerId, Deadline(now, timeout, Interval));
      Enlist(pItem);
      timerId := pItem.TimerId;
    }

    twostate lemma NextIdIsFree()
      requires old(Mapped()) && m_LastTimerId == old(m_LastTimerId) + 1
      requires m_TimerDataMap == old(m_TimerDataMap) && Pending == old(Pending) && Linked == old(Linked)
      requires forall x :: x in Linked ==> x.TimerId == old(x.TimerId) && x.Due == old(x.Due)
      ensures Mapped() && m_LastTimerId !in m_TimerDataMap
    {
    }

    method Enlist(pItem: TimerItem)
      requires Shape() && AllPlaced() && DetachedDue(m_LastTimeval - 1) && Mapped()
      requires pItem !in Linked && pItem != Current && pItem.PrevItem == null && pItem.NextItem == null
      requires pItem.TimerId <= m_LastTimerId && pItem.TimerId !in m_TimerDataMap
      modifies this`Linked, this`Stamp, this`m_TimerDataMap, this`Pending, m_Vector, pItem, Linked`PrevItem
      ensures Shape() && AllPlaced() && DetachedDue(m_LastTimeval - 1) && Mapped()
      ensures Linked == old(Linked) + {pItem} && pItem.TimerId == old(pItem.TimerId)
      ensures Pending == old(Pending)[pItem.TimerId := DueTick(old(pItem.Timeval), m_LastTimeval)]
    {
      hide SlotFor, FiledTick, DueTick, Deadline, Shape, AllPlaced, Mapped, DetachedDue;
      InternalAddTimerItem(pItem);
      m_TimerDataMap, Pending := m_TimerDataMap[pItem.TimerId := pItem], Pending[pItem.TimerId := pItem.Due];
      SetInView(pItem);
    }

    // ----- cascade

    ghost predicate NoneDetached()
      reads `Linked, Linked`List
    {
      forall x :: x in Linked ==> x.List < DETACHED
    }

    /** A detached list without a first item has no items at all: ranks grow along PrevItem. */
    lemma WalkedOut()
      requires Shape() && Walk == null
      ensures NoneDetached()
    {
      forall x | x in Linked
        ensures x.List < DETACHED
      {
        assert Threaded(x);
        if x.List == DETACHED {
          EndlessList(x);
        }
      }
    }

    lemma {:induction false} EndlessList(x: TimerItem)
      requires Shape() && Walk == null && x in Linked && x.List == DETACHED
      ensures false
      decreases Stamp - x.Rank
    {
      assert Threaded(x);
      assert Threaded(x.PrevItem);
      EndlessList(x.PrevItem);
    }

    /** Cuts the list off a slot; its items stay threaded among themselves. */
    method TakeSlot(slot: nat) returns (pTimerItem: TimerItem?)
      requires Shape() && NoneDetached() && slot < SLOTS && Current == null
      modifies m_Vector, this`Walk, Linked`List
      ensures Shape() && Walk == pTimerItem
      ensures forall x :: x in Linked ==> x.List == if old(x.List) == slot then DETACHED else old(x.List)
    {
      pTimerItem := m_Vector[slot];
      m_Vector[slot] := null;
      Walk := pTimerItem;
      forall x | x in Linked && x.List == slot {
        x.List := DETACHED;
      }
      SlotTaken(slot);
    }

    twostate lemma SlotTaken(slot: nat)
      requires old(Shape() && NoneDetached()) && slot < SLOTS && Current == null == old(Current)
      requires m_Vector[slot] == null && Walk == old(m_Vector[slot])
      requires forall s :: 0 <= s < SLOTS && s != slot ==> m_Vector[s] == old(m_Vector[s])
      requires Linked == old(Linked) && Stamp == old(Stamp)
      requires forall x :: x in Linked ==>
                 && x.NextItem == old(x.NextItem) && x.PrevItem == old(x.PrevItem) && x.Rank == old(x.Rank)
                 && x.Base == old(x.Base) && x.List == (if old(x.List) == slot then DETACHED else old(x.List))
      ensures Shape()
    {
      forall x | x in Linked
        ensures Threaded(x)
      {
        assert old(Threaded(x));
      }
    }

    /** The first item leaves the detached list; p.1 tells whether it becomes the running one. */
    twostate lemma FirstTaken(pItem: TimerItem)
      requires old(Shape()) && old(Walk) == pItem && old(Current) == null
      requires Linked == old(Linked) - {pItem} && Walk == pItem.NextItem && Stamp == old(Stamp)
      requires Current == null || Current == pItem
      requires forall s :: 0 <= s < SLOTS ==> m_Vector[s] == old(m_Vector[s])
      requires forall x :: x in old(Linked) ==>
                 && x.NextItem == old(x.NextItem) && x.PrevItem == old(x.PrevItem) && x.Rank == old(x.Rank)
                 && x.Base == old(x.Base) && x.List == old(x.List)
      ensures Shape() && (Walk != null ==> Walk in Linked && Walk.Rank < pItem.Rank)
    {
      assert old(Threaded(pItem));
      forall x | x in Linked
        ensures Threaded(x)
      {
        assert old(Threaded(x));
      }
    }

    /** x is filed afresh for the current tick. */
    ghost predicate Refiled(x: TimerItem)
      reads `m_LastTimeval, x`List, x`Filed, x`Timeval, x`Due
    {
      && x.List == SlotFor(x.Timeval, m_LastTimeval)
      && x.Filed == FiledTick(x.Timeval, m_LastTimeval)
      && x.Due == DueTick(x.Timeval, m_LastTimeval)
    }

    /** Moves the first detached item to the slot it now belongs to. */
    method Relink(pTimerItem: TimerItem) returns (pNextItem: TimerItem?)
      requires Shape() && Walk == pTimerItem && Current == null
      modifies m_Vector, this`Linked, this`Stamp, this`Walk, pTimerItem, Linked`PrevItem
      ensures Shape() && Walk == pNextItem && Linked == old(Linked)
      ensures pNextItem != null ==>
              pNextItem in Linked && pNextItem.Rank < old(pTimerItem.Rank) && pNextItem != pTimerItem
      ensures pTimerItem.Timeval == old(pTimerItem.Timeval) && pTimerItem.TimerId == old(pTimerItem.TimerId)
      ensures Refiled(pTimerItem)
    {
      hide Shape, Threaded, SlotFor, FiledTick, DueTick;
      FirstIsDetached();
      pNextItem := pTimerItem.NextItem;
      Linked, Walk := Linked - {pTimerItem}, pNextItem;
      FirstTaken(pTimerItem);
      pTimerItem.PrevItem, pTimerItem.NextItem, pTimerItem.Base := null, null, -1;
      InternalAddTimerItem(pTimerItem);
    }

    /** Relinks every item of the slot `index` of the vector starting at `vector`, by its distance from the
        current tick; nothing else changes list. */
    method cascade(vector: nat, index: nat) returns (more: bool)
      requires Shape() && NoneDetached() && Idle() && vector + index < SLOTS
      modifies m_Vector, this`Linked, this`Stamp, this`Walk, Linked
      ensures Shape() && NoneDetached() && Idle() && Linked == old(Linked)
      ensures forall x :: x in Linked ==> x.Timeval == old(x.Timeval) && x.TimerId == old(x.TimerId)
      ensures forall x :: x in Linked && old(x.List) != vector + index ==>
                x.List == old(x.List) && x.Filed == old(x.Filed) && x.Due == old(x.Due)
      ensures forall x :: x in Linked && old(x.List) == vector + index ==> Refiled(x)
      ensures more == (index != 0)
    {
      hide Shape, Threaded, SlotFor, FiledTick, DueTick;
      var pTimerItem := TakeSlot(vector + index);
      while pTimerItem != null
        invariant Shape() && Walk == pTimerItem && Current == null && Linked == old(Linked)
        invariant pTimerItem != null ==> pTimerItem in Linked
        invariant forall x :: x in Linked ==> x.Timeval == old(x.Timeval) && x.TimerId == old(x.TimerId)
        invariant forall x :: x in Linked && old(x.List) != vector + index ==>
                    x.List == old(x.List) && x.Filed == old(x.Filed) && x.Due == old(x.Due)
        invariant forall x :: x in Linked && old(x.List) == vector + index ==> x.List == DETACHED || Refiled(x)
        decreases if pTimerItem == null then 0 else pTimerItem.Rank + 1
      {
        FirstIsDetached();
        pTimerItem := Relink(pTimerItem);
      }
      WalkedOut();
      more := index != 0;
    }

    lemma FirstIsDetached()
      requires Shape() && Walk != null
      ensures m_Vector.Length == SLOTS && Walk in Linked && Walk.List == DETACHED
      ensures Walk.NextItem != Walk
    {
      assert Threaded(Walk);
    }

    // ----- CheckTimer

    /** No item sits in a slot that the current tick drains. */
    ghost predicate Drained()
      reads `m_LastTimeval, `Linked, Linked`List
    {
      forall x :: x in Linked ==> !MustDrain(x.List, m_LastTimeval)
    }

    /** One cascade step: the items of one slot that the current tick must drain are refiled. */
    twostate lemma CascadeKeeps(slot: nat)
      requires old(AllPlaced() && Mapped() && NoneDetached()) && NoneDetached()
      requires old(MustDrain(slot, m_LastTimeval)) && m_LastTimeval == old(m_LastTimeval)
      requires Linked == old(Linked) && m_TimerDataMap == old(m_TimerDataMap) && Pending == old(Pending)
      requires m_LastTimerId == old(m_LastTimerId)
      requires forall x :: x in Linked ==> x.Timeval == old(x.Timeval) && x.TimerId == old(x.TimerId)
      requires forall x :: x in Linked && old(x.List) != slot ==>
                 x.List == old(x.List) && x.Filed == old(x.Filed) && x.Due == old(x.Due)
      requires forall x :: x in Linked && old(x.List) == slot ==> Refiled(x)
      ensures AllPlaced() && Mapped()
      ensures forall x :: x in Linked ==> x.Due == old(x.Due)
      ensures forall x :: x in Linked ==> MustDrain(x.List, m_LastTimeval) ==> x.List == old(x.List) != slot
    {
      forall x | x in Linked
        ensures PlacedItem(x) && x.Due == old(x.Due)
        ensures MustDrain(x.List, m_LastTimeval) ==> x.List == old(x.List) != slot
      {
        assert old(PlacedItem(x));
        if old(x.List) == slot {
          DrainDescends(slot, old(x.Filed), x.Timeval, old(x.Due), m_LastTimeval);
          LinkedIsPlaced(x.Timeval, m_LastTimeval);
        }
      }
    }

    /** The cascades that open the tick m_LastTimeval: afterwards no item waits in a slot this tick drains. */
    method CascadeOnWrap()
      requires Shape() && AllPlaced() && Mapped() && NoneDetached() && Idle()
      modifies m_Vector, this`Linked, this`Stamp, this`Walk, Linked
      ensures Shape() && AllPlaced() && Mapped() && NoneDetached() && Idle()
      ensures Linked == old(Linked) && Drained()
      ensures forall x :: x in Linked ==> x.Due == old(x.Due)
    {
      hide Shape, AllPlaced, Mapped, PlacedItem, Refiled, MustDrain;
      var last := m_LastTimeval;
      WrapIsAlignment(last);
      if last % TVR_SIZE == 0 {
        SlotsToDrain(last);
        var more := cascade(VECTOR2, last / 0x100 % TVN_SIZE);
        CascadeKeeps(DrainSlot2(last));
        if !more {
          label Two:
          more := cascade(VECTOR3, last / 0x4000 % TVN_SIZE);
          CascadeKeeps@Two(DrainSlot3(last));
          if !more {
            label Three:
            more := cascade(VECTOR4, last / 0x10_0000 % TVN_SIZE);
            CascadeKeeps@Three(DrainSlot4(last));
            if !more {
              label Four:
              more := cascade(VECTOR5, last / 0x400_0000 % TVN_SIZE);
              CascadeKeeps@Four(DrainSlot5(last));
            }
          }
        }
      }
      forall x | x in Linked
        ensures !MustDrain(x.List, m_LastTimeval)
      {
        if MustDrain(x.List, m_LastTimeval) {
          DrainSlots(x.List, m_LastTimeval);
        }
      }
    }

    /** The tick advances and its fine slot is cut off: what was cut off is exactly what is due. */
    twostate lemma TickTaken(slot: nat)
      requires old(AllPlaced() && Mapped() && NoneDetached() && Drained())
      requires slot == old(m_LastTimeval) % 256 && m_LastTimeval == old(m_LastTimeval) + 1
      requires Linked == old(Linked)
      requires forall x :: x in Linked ==>
                 && x.Filed == old(x.Filed) && x.Timeval == old(x.Timeval) && x.Due == old(x.Due)
                 && x.List == (if old(x.List) == slot then DETACHED else old(x.List))
      ensures AllPlaced() && DetachedDue(m_LastTimeval - 1)
    {
      forall x | x in Linked
        ensures PlacedItem(x) && (x.List == DETACHED ==> x.Due == m_LastTimeval - 1)
      {
        assert old(PlacedItem(x));
        CurrentSlotIsDue(old(x.List), x.Filed, x.Timeval, x.Due, old(m_LastTimeval));
        if old(x.List) != slot {
          TickKeepsPlaced(old(x.List), x.Filed, x.Timeval, x.Due, old(m_LastTimeval));
        }
      }
    }

    /** Opens one tick: cascades, advances the clock, and cuts off the list of timers that are due. */
    method OpenTick() returns (pTimerItem: TimerItem?)
      requires Valid() && Idle()
      modifies this`Linked, this`Stamp, this`Walk, this`m_LastTimeval, m_Vector, Linked
      ensures Shape() && AllPlaced() && Mapped() && DetachedDue(m_LastTimeval - 1)
      ensures Current == null && Walk == pTimerItem
      ensures Linked == old(Linked) && m_LastTimeval == old(m_LastTimeval) + 1
    {
      hide Shape, AllPlaced, Mapped, Drained, PlacedItem, Refiled;
      WalkedOut();
      var index := m_LastTimeval % TVR_SIZE;
      CascadeOnWrap();
      label Cascaded:
      m_LastTimeval := m_LastTimeval + 1;
      pTimerItem := TakeSlot(index);
      TickTaken@Cascaded(index);
    }

    /** The callback of an item: nothing is known about the calls it makes before it returns or throws. */
    method Invoke(pTimerItem: TimerItem) returns (commands: seq<Command>)
      modifies Invoked
      ensures Invoked.Firings == old(Invoked.Firings) + [Firing(pTimerItem.TimerId, pTimerItem.Due, commands)]
    {
      commands := *;
      Invoked.Firings := Invoked.Firings + [Firing(pTimerItem.TimerId, pTimerItem.Due, commands)];
    }

    method Execute(command: Command)
      requires Valid()
      modifies Cells()
      ensures Valid() && Current == old(Current) && fresh(Linked - old(Linked))
      ensures Current != null ==> Current.Rank == old(Current.Rank)
      ensures View() == Apply(old(View()), command) && m_LastTimeval == old(m_LastTimeval)
    {
      hide Valid;
      match command
      case SetTimeout(clock, timeout) =>
        var _ := SetTimeout(timeout, clock);
      case Update(clock, id, timeout) =>
        Update(id, timeout, clock);
      case Clear(id) =>
        Clear(id);
    }

    method ExecuteAll(commands: seq<Command>)
      requires Valid()
      modifies Cells()
      ensures Valid() && Current == old(Current) && fresh(Linked - old(Linked))
      ensures Current != null ==> Current.Rank == old(Current.Rank)
      ensures View() == ApplyAll(old(View()), commands) && m_LastTimeval == old(m_LastTimeval)
    {
      hide Valid, Apply;
      for i := 0 to |commands|
        invariant Valid() && Current == old(Current) && fresh(Linked - old(Linked))
        invariant Current != null ==> Current.Rank == old(Current.Rank)
        invariant View() == ApplyAll(old(View()), commands[..i]) && m_LastTimeval == old(m_LastTimeval)
      {
        Execute(commands[i]);
        assert commands[..i + 1][..i] == commands[..i];
      }
      assert commands[..|commands|] == commands;
    }

    /** The first detached item is due, and no pending timer is due earlier. */
    lemma FirstIsEarliest(x: TimerItem)
      requires Shape() && AllPlaced() && Mapped() && DetachedDue(m_LastTimeval - 1) && Walk == x
      ensures x in Linked && x.TimerId in Pending && Pending[x.TimerId] == m_LastTimeval - 1 == x.Due
      ensures forall id :: id in Pending ==> m_LastTimeval - 1 <= Pending[id]
    {
      forall id | id in Pending
        ensures m_LastTimeval - 1 <= Pending[id]
      {
        assert id in m_TimerDataMap;
        assert PlacedItem(m_TimerDataMap[id]) && Threaded(m_TimerDataMap[id]);
      }
    }

    /** The first detached item leaves its list and the id map to run its callback. */
    method TakeFirst(pTimerItem: TimerItem)
      requires Shape() && AllPlaced() && Mapped() && DetachedDue(m_LastTimeval - 1)
      requires Current == null && Walk == pTimerItem
      modifies this`Linked, this`Walk, this`Current, this`m_TimerDataMap, this`Pending
      ensures Valid() && Current == pTimerItem && Linked == old(Linked) - {pTimerItem}
      ensures Pending == old(Pending) - {pTimerItem.TimerId}
    {
      hide Shape, AllPlaced, Mapped, DetachedDue;
      FirstIsEarliest(pTimerItem);
      m_TimerDataMap, Pending := m_TimerDataMap - {pTimerItem.TimerId}, Pending - {pTimerItem.TimerId};
      Linked, Walk, Current := Linked - {pTimerItem}, pTimerItem.NextItem, pTimerItem;
      FirstTaken(pTimerItem);
      DroppedFromView(pTimerItem);
    }

    lemma RunningThenWalk()
      requires Shape() && Current != null
      ensures Current.NextItem == Walk && (Walk != null ==> Walk.Rank < Current.Rank)
    {
    }

    /** The callback is over; its item is deleted and the walk stands at the next one. */
    twostate lemma WalkResumes()
      requires old(Shape()) && Current == null
      requires Linked == old(Linked) && Stamp == old(Stamp) && Walk == old(Walk)
      requires forall s :: 0 <= s < SLOTS ==> m_Vector[s] == old(m_Vector[s])
      requires forall x :: x in Linked ==>
                 && x.NextItem == old(x.NextItem) && x.PrevItem == old(x.PrevItem) && x.Rank == old(x.Rank)
                 && x.Base == old(x.Base) && x.List == old(x.List)
      ensures Shape()
    {
      forall x | x in Linked
        ensures Threaded(x)
      {
        assert old(Threaded(x));
      }
    }

    /** Fires the first detached item: it leaves the id map, its callback runs, and the walk moves on. */
    method FireFirst(pTimerItem: TimerItem) returns (ghost e: Firing, pNextItem: TimerItem?)
      requires Shape() && AllPlaced() && Mapped() && DetachedDue(m_LastTimeval - 1)
      requires Current == null && Walk == pTimerItem
      modifies Cells(), Invoked
      ensures Invoked.Firings == old(Invoked.Firings) + [e]
      ensures Shape() && AllPlaced() && Mapped() && DetachedDue(m_LastTimeval - 1)
      ensures Current == null && Walk == pNextItem && fresh(Linked - old(Linked))
      ensures pNextItem != null ==> pNextItem.Rank < old(pTimerItem.Rank)
      ensures e.id == old(pTimerItem.TimerId) && e.due == old(m_LastTimeval) - 1
      ensures View() == Fire(old(View()), e) && m_LastTimeval == old(m_LastTimeval)
    {
      hide Shape, AllPlaced, Mapped, DetachedDue;
      FirstIsEarliest(pTimerItem);
      TakeFirst(pTimerItem);
      var commands := Invoke(pTimerItem);
      ExecuteAll(commands);
      e := Firing(old(pTimerItem.TimerId), old(m_LastTimeval) - 1, commands);
      RunningThenWalk();
      pNextItem := pTimerItem.NextItem;
      label Returned:
      Current := null;
      WalkResumes@Returned();
    }

    /** The machine after `log`, with the clock advanced to the wheel's. */
    ghost predicate Follows(f: Flat, log: seq<Firing>, now: nat)
      reads `m_LastTimeval, `m_LastTimerId, `Pending
    {
      && LegalLog(f, log, now)
      && Replay(f, log).last <= m_LastTimeval
      && View() == Replay(f, log).(last := m_LastTimeval)
    }

    /** One more legal firing extends the log. */
    twostate lemma FollowsOn(p: (Flat, seq<Firing>, nat, Firing))
      requires var (f, log, now, e) := p;
        && old(Follows(f, log, now))
        && Legal(old(View()), e, now) && e.due + 1 == old(m_LastTimeval)
        && View() == Fire(old(View()), e) && m_LastTimeval == old(m_LastTimeval)
      ensures Follows(p.0, p.1 + [p.3], p.2)
    {
      ghost var (f, log, now, e) := p;
      assert Begin(old(View()), e) == Begin(Replay(f, log), e);
      LegalSnoc(f, log, e, now);
    }

    lemma NothingFired(now: nat)
      ensures Follows(View(), [], now) && Replay(View(), []) == View()
    {
    }

    /** Between checks nothing pending is overdue. */
    lemma NothingOverdue()
      requires Valid() && Walk == null
      ensures TimerSpec.Valid(View())
    {
      WalkedOut();
      forall id | id in Pending
        ensures m_LastTimeval <= Pending[id] && id <= m_LastTimerId
      {
        assert id in m_TimerDataMap;
        assert PlacedItem(m_TimerDataMap[id]);
      }
    }

    method CheckTimer(now: nat) returns (ghost log: seq<Firing>)
      requires Valid() && Idle()
      modifies Cells(), Invoked
      ensures Valid() && Idle() && fresh(Linked - old(Linked))
      ensures Invoked.Firings == old(Invoked.Firings) + log
      ensures Checked(old(View()), now, log, View())
    {
      hide Shape, AllPlaced, Mapped, DetachedDue, Apply, ApplyAll, Fire, Legal, LegalLog, Replay;
      log := [];
      ghost var f := View();
      NothingFired(now);
      while m_LastTimeval < now
        invariant Valid() && Idle() && fresh(Linked - old(Linked)) && Invoked.Firings == old(Invoked.Firings) + log
        invariant Follows(f, log, now) && (m_LastTimeval <= now || (log == [] && m_LastTimeval == f.last))
      {
        ghost var tick := m_LastTimeval;
        var pTimerItem := OpenTick();
        while pTimerItem != null
          invariant Shape() && AllPlaced() && Mapped() && DetachedDue(m_LastTimeval - 1)
          invariant Current == null && Walk == pTimerItem && fresh(Linked - old(Linked))
          invariant Follows(f, log, now) && m_LastTimeval == tick + 1
          invariant Invoked.Firings == old(Invoked.Firings) + log
          decreases if pTimerItem == null then 0 else pTimerItem.Rank + 1
        {
          FirstIsEarliest(pTimerItem);
          label Due:
          ghost var e;
          e, pTimerItem := FireFirst(pTimerItem);
          FollowsOn@Due((f, log, now, e));
          log := log + [e];
        }
      }
      NothingOverdue();
    }

    // ----- heap integrity, read off

    /** The items met by following NextItem. */
    ghost function Chain(x: TimerItem?): (s: seq<TimerItem>)
      requires Shape() && (x == null || x in Linked)
      reads `Linked, `Stamp, `Walk, `Current, m_Vector
      reads Linked`NextItem, Linked`PrevItem, Linked`List, Linked`Rank, Linked`Base
      reads Running()`NextItem, Running()`Rank
      ensures forall i :: 0 <= i < |s| ==> s[i] in Linked && x != null && s[i].List == x.List && s[i].Rank <= x.Rank
      ensures forall i, j :: 0 <= i < j < |s| ==> s[j].Rank < s[i].Rank && s[i] != s[j]
      decreases if x == null then 0 else x.Rank + 1
    {
      if x == null then []
      else
        assert Threaded(x);
        [x] + Chain(x.NextItem)
    }

    /** Walking a slot from its head cell meets exactly the items of that slot, each once: every linked item is
        reachable, through its Base, and through no other slot. */
    lemma {:induction false} ReachableFromHead(x: TimerItem)
      requires Valid() && Idle() && x in Linked
      ensures 0 <= x.Base < SLOTS && m_Vector[x.Base] != null && x in Chain(m_Vector[x.Base])
      decreases Stamp - x.Rank
    {
      assert Threaded(x);
      WalkedOut();
      var head := m_Vector[x.Base];
      if x.PrevItem == null {
        assert Chain(head)[0] == x;
      } else {
        assert Threaded(x.PrevItem);
        ReachableFromHead(x.PrevItem);
        NextInChain(head, x.PrevItem);
      }
    }

    lemma {:induction false} NextInChain(head: TimerItem, x: TimerItem)
      requires Shape() && head in Linked && x in Chain(head) && x.NextItem != null
      ensures x.NextItem in Chain(head)
      decreases head.Rank
    {
      assert Threaded(head);
      var rest := Chain(head.NextItem);
      assert Chain(head) == [head] + rest;
      if x == head {
        assert rest[0] == x.NextItem;
        assert Chain(head)[1] == x.NextItem;
      } else {
        var i :| 0 <= i < |Chain(head)| && Chain(head)[i] == x;
        assert rest[i - 1] == x;
        NextInChain(head.NextItem, x);
        var j :| 0 <= j < |rest| && rest[j] == x.NextItem;
        assert Chain(head)[j + 1] == x.NextItem;
      }
    }
  }
}

/** Following a log that grows: what a write does to a reader standing anywhere in it. */
module BinlogTail {
  import opened Bytes
  import opened BinlogFormat
  import opened BinlogLayout
  import opened BinlogTheorems

  /** A reader stands in the block at `start`, at offset `off` of it, with or without having read its head. */
  datatype Position = Position(start: nat, off: nat, loaded: bool)

  function ToRead(data: seq<byte>, B: nat, p: Position): seq<Item>
    requires 0 < B
  {
    Remaining(data, B, p.start, p.off, p.loaded)
  }

  function Resume(p: Position): nat {
    ResumeAt(p.off, p.loaded)
  }

  /** The reader stands between two records, or at the end of a block, or in front of a block yet to come. */
  predicate OnTrack(data: seq<byte>, B: nat, p: Position)
    requires 0 < B
  {
    && Boundary(p.start, B)
    && (p.off < B ==>
          var block := Block(data, p.start, B);
          if block == [] then !p.loaded && p.start == |data| && p.off <= BLOCK_HEAD
          else Resume(p) <= |block| && BLOCK_HEAD <= |block| && End(block, Resume(p)) == End(block, BLOCK_HEAD))
    && (B <= p.off ==> p.start + B <= |data| || |data| <= p.start)
  }

  /** The reader went past a full block when no next block existed: it has skipped the one to come. */
  predicate Parked(data: seq<byte>, B: nat, p: Position) {
    B <= p.off && |data| <= p.start
  }

  /** A reader that meets the end of the file from here ends up parked: it was already, or the file is a number of
      full blocks, of which the reader stands in the last and not in front of the one to come. */
  predicate Parks(data: seq<byte>, B: nat, p: Position)
    requires 0 < B
  {
    Parked(data, B, p) || (0 < |data| && |data| % B == 0 && p.start != |data|)
  }

  /** Meeting the end of the file takes a reader from p to q: a parked reader goes one block further; any other
      stands in the file or right at its end, and is parked there exactly if it had to be. */
  predicate MetEnd(data: seq<byte>, B: nat, p: Position, q: Position)
    requires 0 < B
  {
    && (Parked(data, B, q) <==> Parks(data, B, p))
    && if Parked(data, B, p) then q == Position(p.start + B, p.off, false) else q.start <= |data|
  }

  /** From in front of bytes of its block a reader parks exactly when the file is full blocks. */
  lemma ParksInside(data: seq<byte>, B: nat, p: Position)
    requires 0 < B && p.start < |data|
    ensures !Parked(data, B, p) && (Parks(data, B, p) <==> |data| % B == 0)
  {
  }

  lemma MetEndFrom(data: seq<byte>, B: nat, p: Position, q: Position, r: Position)
    requires 0 < B && p.start < |data| && q.start < |data| && MetEnd(data, B, q, r)
    ensures MetEnd(data, B, p, r)
  {
  }

  lemma MetEndParks(data: seq<byte>, B: nat, p: Position, q: Position)
    requires 0 < B && MetEnd(data, B, p, q)
    ensures Parked(data, B, q) <==> Parks(data, B, p)
  {
  }

  /** Met behind a block: the reader goes on to the block that is not there. */
  lemma ParksBehind(data: seq<byte>, B: nat, p: Position)
    requires 0 < B && OnTrack(data, B, p) && B <= p.off && |data| <= p.start + B
    ensures Parks(data, B, p) && Parked(data, B, Position(p.start + B, p.off, false))
    ensures MetEnd(data, B, p, Position(p.start + B, p.off, false))
  {
    if p.start < |data| {
      assert |data| == p.start + B;
      NextBoundary(p.start, B);
    }
  }

  /** Met inside a block, or in front of one: the reader stays. */
  lemma StaysInside(data: seq<byte>, B: nat, p: Position)
    requires 0 < B && OnTrack(data, B, p) && p.off < B && |data| <= p.start + (if p.loaded then p.off else 0)
    ensures !Parks(data, B, p) && MetEnd(data, B, p, p)
  {
    TrackCases(data, B, p);
    if p.start < |data| {
      BoundaryMod(|data|, p.start, B);
    }
  }

  lemma TidyEnd(block: seq<byte>, next: seq<byte>)
    requires Tidy(block, next)
    ensures BLOCK_HEAD <= |block| && block[0] == BLOCK_MAGIC
    ensures End(block, BLOCK_HEAD) < |block| ==> block[End(block, BLOCK_HEAD)] == 0
  {
    hide Look, End;
    var end := End(block, BLOCK_HEAD);
    if end < |block| {
      assert block[end..][0] == block[end];
    }
  }

  lemma InBlock(data: seq<byte>, B: nat, p: Position)
    requires 0 < B && OnTrack(data, B, p) && p.off < B && p.start < |data| && Laid(data, p.start, B)
    ensures var block := Block(data, p.start, B);
            && BLOCK_HEAD <= |block| && Resume(p) <= |block| && End(block, Resume(p)) == End(block, BLOCK_HEAD)
            && block[0] == BLOCK_MAGIC
            && !Stuck(Scan(block, Resume(p), DATA_OFFSET + p.start))
            && ToRead(data, B, p) == Scan(block, Resume(p), DATA_OFFSET + p.start) + Blocks(data, p.start + B, B)
  {
    hide Look, Scan, Blocks, End, Tidy, Laid;
    var block := Block(data, p.start, B);
    LaidTail(data, p.start, B);
    TidyEnd(block, Block(data, p.start + B, B));
    EndNotStuck(block, Resume(p), DATA_OFFSET + p.start);
  }

  /** A write behind the block the reader stands in. */
  lemma GrowsBehind(data: seq<byte>, B: nat, w: Entry, p: Position)
    requires 0 < B < TWO32 && Fits(B, w.payload) && OnTrack(data, B, p) && p.off < B
    requires p.start + B <= |data| && Laid(data, p.start, B)
    ensures var grown := Append(data, B, w.time, w.payload);
            && OnTrack(grown, B, p)
            && ToRead(grown, B, p) == ToRead(data, B, p) + [Record(AppendOffset(data, B, w.payload), w.payload)]
  {
    hide Look, Scan, Blocks, Laid, Added, AppendOffset, End, Tidy, OnTrack, ToRead, Block;
    var grown := Append(data, B, w.time, w.payload);
    TrackBoundary(data, B, p);
    NextBoundary(p.start, B);
    LaidTail(data, p.start, B);
    InBlock(data, B, p);
    AppendLaid(data, p.start + B, B, w.time, w.payload);
    BlockKept(data, Added(data, B, w.time, w.payload), p.start, B);
    BeforeAppend(data, p.start, B, w.time, w.payload);
    SameBlock(data, grown, B, p);
    InBlock(grown, B, p);
  }

  lemma SameBlock(data: seq<byte>, grown: seq<byte>, B: nat, p: Position)
    requires 0 < B && OnTrack(data, B, p) && p.off < B && p.start < |data|
    requires Block(grown, p.start, B) == Block(data, p.start, B)
    ensures OnTrack(grown, B, p)
  {
    hide Look, End;
  }

  /** A write into the block the reader stands in, or right behind it. */
  lemma GrowsHere(data: seq<byte>, B: nat, w: Entry, p: Position)
    requires 0 < B < TWO32 && Fits(B, w.payload) && OnTrack(data, B, p) && p.off < B
    requires p.start < |data| < p.start + B && Laid(data, p.start, B)
    ensures var grown := Append(data, B, w.time, w.payload);
            && OnTrack(grown, B, p)
            && ToRead(grown, B, p) == ToRead(data, B, p) + [Record(AppendOffset(data, B, w.payload), w.payload)]
  {
    hide Blocks, Laid, FreshBlock, Frame, Zeros, OnTrack, ToRead, Append, AppendOffset, Boundary;
    TrackBoundary(data, B, p);
    AppendCases(data, B, w, p.start);
    if p.start + B - |data| < 6 + |w.payload| {
      PaddedHere(data, B, w, p);
    } else {
      FilledHere(data, B, w.payload, p);
    }
  }

  /** What a write appends to a log whose last block starts at `start`. */
  lemma AppendCases(data: seq<byte>, B: nat, w: Entry, start: nat)
    requires 0 < B < TWO32 && Fits(B, w.payload) && Boundary(start, B) && start <= |data| < start + B
    ensures var remain, grown := start + B - |data|, Append(data, B, w.time, w.payload);
            var offset := AppendOffset(data, B, w.payload);
            if remain == B then
              grown == data + FreshBlock(w.time, w.payload) && offset == DATA_OFFSET + start + BLOCK_HEAD
            else if remain < 6 + |w.payload| then
              && grown == data + (Zeros(remain) + FreshBlock(w.time, w.payload))
              && offset == DATA_OFFSET + start + B + BLOCK_HEAD
            else
              grown == data + Frame(w.payload) && offset == DATA_OFFSET + |data|
  {
    hide FreshBlock, Frame, Zeros;
    BoundaryMod(|data|, start, B);
  }

  lemma TrackBoundary(data: seq<byte>, B: nat, p: Position)
    requires 0 < B && OnTrack(data, B, p)
    ensures Boundary(p.start, B)
  {
  }

  lemma NothingAfter(data: seq<byte>, start: nat, B: nat)
    requires 0 < B && |data| <= start + B
    ensures Blocks(data, start + B, B) == []
  {
  }

  lemma FilledHere(data: seq<byte>, B: nat, payload: seq<byte>, p: Position)
    requires 0 < B < TWO32 && OnTrack(data, B, p) && p.off < B
    requires p.start < |data| && |data| + 6 + |payload| <= p.start + B && Laid(data, p.start, B)
    ensures var grown := data + Frame(payload);
            && OnTrack(grown, B, p)
            && ToRead(grown, B, p) == ToRead(data, B, p) + [Record(DATA_OFFSET + |data|, payload)]
  {
    hide Look, Scan, Blocks, Laid, Frame, End, Tidy, Boundary;
    var grown := data + Frame(payload);
    InBlock(data, B, p);
    LastIsRecords(data, p.start, B);
    NothingAfter(data, p.start, B);
    NothingAfter(grown, p.start, B);
    AppendFitting(data, p.start, B, payload);
    BlockGrowsWhole(data, Frame(payload), p.start, B);
    ScanAppended(data[p.start..], payload, Resume(p), DATA_OFFSET + p.start);
    ScanAppended(data[p.start..], payload, BLOCK_HEAD, DATA_OFFSET + p.start);
    InBlock(grown, B, p);
  }

  lemma PaddedHere(data: seq<byte>, B: nat, w: Entry, p: Position)
    requires 0 < B < TWO32 && Fits(B, w.payload) && OnTrack(data, B, p) && p.off < B
    requires p.start < |data| < p.start + B < |data| + 6 + |w.payload| && Laid(data, p.start, B)
    ensures var grown := data + (Zeros(p.start + B - |data|) + FreshBlock(w.time, w.payload));
            && OnTrack(grown, B, p)
            && ToRead(grown, B, p)
               == ToRead(data, B, p) + [Record(DATA_OFFSET + p.start + B + BLOCK_HEAD, w.payload)]
  {
    hide ToRead, Look, Scan, Blocks, Laid, FreshBlock, Zeros, End, Tidy, Boundary, Block;
    var gap, next := Zeros(p.start + B - |data|), FreshBlock(w.time, w.payload);
    var grown := data + (gap + next);
    PaddedGrown(data, B, w, p.start);
    InBlock(data, B, p);
    LastIsRecords(data, p.start, B);
    NothingAfter(data, p.start, B);
    ScanPadded(data[p.start..], |gap|, Resume(p), DATA_OFFSET + p.start);
    ScanPadded(data[p.start..], |gap|, BLOCK_HEAD, DATA_OFFSET + p.start);
    InBlock(grown, B, p);
  }

  lemma PaddedGrown(data: seq<byte>, B: nat, w: Entry, start: nat)
    requires 0 < B < TWO32 && Fits(B, w.payload)
    requires start < |data| < start + B < |data| + 6 + |w.payload| && Laid(data, start, B)
    ensures var grown := data + (Zeros(start + B - |data|) + FreshBlock(w.time, w.payload));
            && Laid(grown, start, B) && Block(grown, start, B) == data[start..] + Zeros(start + B - |data|)
            && Blocks(grown, start + B, B) == [Record(DATA_OFFSET + start + B + BLOCK_HEAD, w.payload)]
  {
    hide Look, Scan, Blocks, Laid, FreshBlock, Zeros, End, Tidy, Block;
    var gap, next := Zeros(start + B - |data|), FreshBlock(w.time, w.payload);
    FreshBlockHolds(w.time, w.payload, DATA_OFFSET + start + B);
    AppendPadded(data, start, B, w.time, w.payload);
    PaddedBlocks(data, gap, next, start, B);
    LastBlock(data + (gap + next), start + B, B, [Record(DATA_OFFSET + start + B + BLOCK_HEAD, w.payload)]);
  }

  /** A write in front of a reader that waits for the next block, at the end of the file or behind a block it has
      finished. */
  lemma GrowsAhead(data: seq<byte>, B: nat, w: Entry, p: Position)
    requires 0 < B < TWO32 && Fits(B, w.payload) && OnTrack(data, B, p)
    requires p.off < B && p.start == |data|
    ensures var grown := Append(data, B, w.time, w.payload);
            && OnTrack(grown, B, p)
            && ToRead(grown, B, p) == ToRead(data, B, p) + [Record(AppendOffset(data, B, w.payload), w.payload)]
  {
    hide Look, Scan, FreshBlock, End, Laid, Append, AppendOffset, Boundary;
    TrackBoundary(data, B, p);
    AppendCases(data, B, w, |data|);
    var first := FreshBlock(w.time, w.payload);
    FreshBlockHolds(w.time, w.payload, DATA_OFFSET + |data|);
    BlockGrowsWhole(data, first, |data|, B);
    assert data[|data|..] + first == first;
    NothingAfter(data + first, |data|, B);
  }

  lemma LaidFrom(data: seq<byte>, start: nat, B: nat)
    requires 0 < B && Laid(data, 0, B) && Boundary(start, B)
    ensures Laid(data, start, B)
  {
    if start <= |data| {
      EmptyLog(B);
      SplitAt(data, 0, start, B);
    }
  }

  /** What an accepted write does to any reader on the track: its record joins the end of what the reader still
      has to read, unless the reader is parked; a parked reader never sees it. */
  lemma WriteReachesReader(data: seq<byte>, B: nat, w: Entry, p: Position)
    requires 0 < B < TWO32 && Fits(B, w.payload) && Laid(data, 0, B) && OnTrack(data, B, p)
    ensures var grown := Append(data, B, w.time, w.payload);
            var record := Record(AppendOffset(data, B, w.payload), w.payload);
            && (ToRead(grown, B, p) == ToRead(data, B, p) + [record] <==> !Parked(data, B, p))
            && (Parked(data, B, p) ==> ToRead(grown, B, p) == [])
            && (!Parked(data, B, p) ==> OnTrack(grown, B, p) && !Parked(grown, B, p))
  {
    hide Laid, Blocks, OnTrack, ToRead, Append, AppendOffset;
    TrackCases(data, B, p);
    if p.off < B {
      LaidFrom(data, p.start, B);
      if p.start == |data| {
        GrowsAhead(data, B, w, p);
      } else if p.start + B <= |data| {
        GrowsBehind(data, B, w, p);
      } else {
        GrowsHere(data, B, w, p);
      }
    } else if p.start + B <= |data| {
      NextBoundary(p.start, B);
      LaidFrom(data, p.start + B, B);
      AppendLaid(data, p.start + B, B, w.time, w.payload);
      BehindBlock(data, B, p);
      BehindBlock(Append(data, B, w.time, w.payload), B, p);
      AppendGrows(data, B, w);
    } else {
      BehindBlock(data, B, p);
      BehindBlock(Append(data, B, w.time, w.payload), B, p);
      NothingAfter(data, p.start, B);
      AppendStops(data, p.start, B, w);
      NothingAfter(Append(data, B, w.time, w.payload), p.start, B);
    }
  }

  lemma TrackCases(data: seq<byte>, B: nat, p: Position)
    requires 0 < B && OnTrack(data, B, p)
    ensures Boundary(p.start, B)
    ensures p.off < B ==> p.start <= |data|
    ensures B <= p.off ==> p.start + B <= |data| || |data| <= p.start
  {
  }

  lemma BehindBlock(data: seq<byte>, B: nat, p: Position)
    requires 0 < B && Boundary(p.start, B) && B <= p.off
    ensures ToRead(data, B, p) == Blocks(data, p.start + B, B)
    ensures p.start + B <= |data| ==> OnTrack(data, B, p)
  {
  }

  lemma AppendGrows(data: seq<byte>, B: nat, w: Entry)
    requires 0 < B
    ensures |data| <= |Append(data, B, w.time, w.payload)|
  {
  }

  /** A write opens at most one block. */
  lemma AppendStops(data: seq<byte>, start: nat, B: nat, w: Entry)
    requires 0 < B < TWO32 && Fits(B, w.payload) && Boundary(start, B) && |data| <= start
    ensures |Append(data, B, w.time, w.payload)| <= start + B
  {
    hide FreshBlock, Frame;
    var last := StartOf(|data|, B);
    var k := |data| / B;
    assert |data| == k * B + |data| % B;
    ModUnique(last, B, k, 0);
    if start < last + B && |data| % B != 0 {
      BoundaryMod(start, last, B);
    }
    AppendedSize(data, B, w);
  }

  lemma AppendedSize(data: seq<byte>, B: nat, w: Entry)
    requires 0 < B < TWO32 && Fits(B, w.payload)
    ensures var size, used := |Append(data, B, w.time, w.payload)|, |data| % B;
            size <= |data| - used + (if used == 0 then B else 2 * B)
  {
    hide Frame, BlockHead;
  }

  // ----- how a reader moves

  /** Having read the head of the block at `start`, the reader stands behind it, or gives the block up. */
  function Entered(block: seq<byte>, start: nat, off: nat, B: nat): Position
    requires BLOCK_HEAD <= |block|
  {
    if block[0] != BLOCK_MAGIC then Position(start, B, true)
    else Position(start, if off < BLOCK_HEAD then BLOCK_HEAD else off, true)
  }

  lemma EnterNext(data: seq<byte>, B: nat, start: nat)
    requires 0 < B && start < |data| && BLOCK_HEAD <= |Block(data, start, B)|
    ensures Blocks(data, start, B) == ToRead(data, B, Entered(Block(data, start, B), start, 0, B))
  {
    hide Look, Scan, Then, Blocks;
    UnfoldBlocks(data, start, B);
    NothingThen(Blocks(data, start + B, B));
    ScanBeyond(Block(data, start, B), DATA_OFFSET + start);
  }

  lemma ScanBeyond(block: seq<byte>, base: nat)
    ensures Scan(block, |block|, base) == []
  {
  }

  lemma EnterFirst(data: seq<byte>, B: nat, p: Position)
    requires 0 < B && !p.loaded && p.off < B && p.start < |data| && BLOCK_HEAD <= |Block(data, p.start, B)|
    ensures ToRead(data, B, p) == ToRead(data, B, Entered(Block(data, p.start, B), p.start, p.off, B))
  {
    hide Look, Scan, Then, Blocks;
    NothingThen(Blocks(data, p.start + B, B));
    ScanBeyond(Block(data, p.start, B), DATA_OFFSET + p.start);
  }

  lemma EnteredOnTrack(data: seq<byte>, B: nat, start: nat, off: nat)
    requires 0 < B && start < |data| && Laid(data, start, B) && Boundary(start, B)
    requires OnTrack(data, B, Position(start, off, false)) && off < B
    ensures BLOCK_HEAD <= |Block(data, start, B)|
    ensures OnTrack(data, B, Entered(Block(data, start, B), start, off, B))
  {
    hide Look;
  }

  lemma GiveUp(data: seq<byte>, B: nat, p: Position)
    requires 0 < B && p.loaded && p.off < |Block(data, p.start, B)| && Look(Block(data, p.start, B), p.off) == Nothing
    ensures ToRead(data, B, p) == ToRead(data, B, p.(off := B))
  {
  }

  lemma GiveUpOnTrack(data: seq<byte>, B: nat, p: Position)
    requires 0 < B && p.loaded && p.off < |Block(data, p.start, B)| && Look(Block(data, p.start, B), p.off) == Nothing
    requires Laid(data, p.start, B) && OnTrack(data, B, p)
    ensures OnTrack(data, B, p.(off := B))
  {
    hide Look;
    LaidTail(data, p.start, B);
    if |data| <= p.start + B {
      LastIsRecords(data, p.start, B);
    }
  }

  lemma AtEnd(data: seq<byte>, B: nat, p: Position)
    requires 0 < B && p.loaded && p.off < B && |data| <= p.start + p.off
    ensures ToRead(data, B, p) == []
  {
    NothingAfter(data, p.start, B);
  }

  lemma LookFits(block: seq<byte>, off: nat)
    requires off < |block| && Look(block, off).Found?
    ensures off + 6 + Look(block, off).len <= |block|
  {
  }

  lemma ScanFound(block: seq<byte>, off: nat, base: nat)
    requires off < |block| && Look(block, off).Found?
    ensures var len := Look(block, off).len;
            && off + 6 + len <= |block| && End(block, off + 6 + len) == End(block, off)
            && Scan(block, off, base)
               == [Record(base + off, block[off + 5..off + 5 + len])] + Scan(block, off + 6 + len, base)
    ensures forall o: nat {:trigger Scan(block, o, base)} :: |block| <= o ==> Scan(block, o, base) == []
  {
    hide Look;
    LookFits(block, off);
  }

  lemma OneThen(item: Item, items: seq<Item>, rest: seq<Item>)
    requires item.Record?
    ensures Then([item] + items, rest) == [item] + Then(items, rest)
  {
    hide Stuck;
    StuckTail(item, items);
    assert [item] + items + rest == [item] + (items + rest);
  }

  lemma StuckTail(item: Item, items: seq<Item>)
    requires item.Record?
    ensures Stuck([item] + items) == Stuck(items)
  {
    if items != [] {
      assert ([item] + items)[|items|] == items[|items| - 1];
    }
  }

  /** The record under the reader is the next to be delivered. */
  lemma TakeRecord(data: seq<byte>, B: nat, p: Position)
    requires 0 < B && p.loaded && p.off < |Block(data, p.start, B)| && Look(Block(data, p.start, B), p.off).Found?
    ensures var block := Block(data, p.start, B);
            var len := Look(block, p.off).len;
            && p.off + 6 + len <= |block| <= B
            && ToRead(data, B, p) == [Record(DATA_OFFSET + p.start + p.off, block[p.off + 5..p.off + 5 + len])]
                                     + ToRead(data, B, p.(off := p.off + 6 + len))
            && (OnTrack(data, B, p) ==> OnTrack(data, B, p.(off := p.off + 6 + len)))
  {
    hide Look, Scan, End, Blocks, Then;
    var block := Block(data, p.start, B);
    var len := Look(block, p.off).len;
    var base := DATA_OFFSET + p.start;
    ScanFound(block, p.off, base);
    OneThen(Record(base + p.off, block[p.off + 5..p.off + 5 + len]), Scan(block, p.off + 6 + len, base),
        Blocks(data, p.start + B, B));
    NothingThen(Blocks(data, p.start + B, B));
  }

  lemma NothingThen(rest: seq<Item>)
    ensures Then([], rest) == rest
  {
  }

  lemma HitWrap(data: seq<byte>, B: nat, p: Position)
    requires 0 < B && p.loaded && p.off < |Block(data, p.start, B)| && Look(Block(data, p.start, B), p.off).Wraps?
    ensures ToRead(data, B, p) == [Overflow(DATA_OFFSET + p.start + p.off)]
  {
    hide Look;
  }

  /** A reader past its block takes the next: there is none, it is too short, or it is entered. */
  lemma NextBlockCases(data: seq<byte>, B: nat, p: Position)
    requires 0 < B && B <= p.off
    ensures var start := p.start + B;
            var block := Block(data, start, B);
            && (block == [] ==>
               ToRead(data, B, p) == [] && |data| <= start && ToRead(data, B, Position(start, p.off, false)) == [])
            && (0 < |block| < BLOCK_HEAD ==> ToRead(data, B, p) == [Short])
            && (BLOCK_HEAD <= |block| ==>
               start < |data| && ToRead(data, B, p) == ToRead(data, B, Entered(block, start, 0, B)))
  {
    hide Look, Scan;
    if BLOCK_HEAD <= |Block(data, p.start + B, B)| {
      EnterNext(data, B, p.start + B);
    }
  }

  lemma NextBlockTrack(data: seq<byte>, B: nat, p: Position)
    requires 0 < B && B <= p.off && Laid(data, 0, B) && OnTrack(data, B, p)
    ensures var start := p.start + B;
            var block := Block(data, start, B);
            && (block == [] ==> OnTrack(data, B, Position(start, p.off, false)))
            && (BLOCK_HEAD <= |block| ==> OnTrack(data, B, Entered(block, start, 0, B)))
  {
    hide Look, Scan, Laid;
    NextBoundary(p.start, B);
    LaidFrom(data, p.start + B, B);
    if BLOCK_HEAD <= |Block(data, p.start + B, B)| {
      EnteredOnTrack(data, B, p.start + B, 0);
    }
  }

  /** The same for a reader that has not read the head of its block. */
  lemma FirstBlockCases(data: seq<byte>, B: nat, p: Position)
    requires 0 < B && p.off < B && !p.loaded
    ensures var block := Block(data, p.start, B);
            && (block == [] ==> ToRead(data, B, p) == [])
            && (0 < |block| < BLOCK_HEAD ==> ToRead(data, B, p) == [Short])
            && (BLOCK_HEAD <= |block| ==>
               p.start < |data| && ToRead(data, B, p) == ToRead(data, B, Entered(block, p.start, p.off, B)))
  {
    hide Look, Scan;
    if BLOCK_HEAD <= |Block(data, p.start, B)| {
      EnterFirst(data, B, p);
    }
  }

  lemma FirstBlockTrack(data: seq<byte>, B: nat, p: Position)
    requires 0 < B && p.off < B && !p.loaded && Laid(data, 0, B) && OnTrack(data, B, p)
    requires BLOCK_HEAD <= |Block(data, p.start, B)|
    ensures OnTrack(data, B, Entered(Block(data, p.start, B), p.start, p.off, B))
  {
    hide Look, Scan, Laid;
    TrackBoundary(data, B, p);
    LaidFrom(data, p.start, B);
    EnteredOnTrack(data, B, p.start, p.off);
  }

  /** What the reader makes of its cache is what it would make of the block: the cache is the whole block, or it
      holds whole records from the reader's offset to its end. */
  lemma CacheSuffices(block: seq<byte>, seen: nat, off: nat)
    requires off < seen <= |block| && (seen == |block| || End(block[..seen], off) == seen)
    ensures Look(block[..seen], off) == Look(block, off)
    ensures seen == |block| || (Look(block, off).Found? && End(block[..seen], off + 6 + Look(block, off).len) == seen)
  {
    if seen == |block| {
      assert block[..seen] == block;
    } else {
      var len := Look(block[..seen], off).len;
      LookGrows(block[..seen], block[seen..], off);
      assert block[..seen] + block[seen..] == block;
    }
  }

  /** A cache of a reader's block: a prefix of it, all of it, or used up, or whole records to its end. */
  predicate CacheOf(block: seq<byte>, cache: seq<byte>, off: nat) {
    && BLOCK_HEAD <= |cache| <= |block| && cache == block[..|cache|]
    && (cache == block || |cache| <= off || End(cache, off) == |cache|)
  }

  lemma CacheDecides(block: seq<byte>, cache: seq<byte>, off: nat, p: Probe)
    requires CacheOf(block, cache, off) && off < |cache| && p == Look(cache, off)
    ensures p == Look(block, off)
    ensures p.Found? ==>
              && off + 6 + p.len <= |cache|
              && cache[off + 5..off + 5 + p.len] == block[off + 5..off + 5 + p.len]
              && CacheOf(block, cache, off + 6 + p.len)
  {
    hide Look;
    CacheSuffices(block, |cache|, off);
    if p.Found? {
      LookFits(cache, off);
      SubSlice(block, 0, |cache|, off + 5, off + 5 + p.len);
    }
  }

  /** A write leaves the cache of a reader on the track usable. */
  lemma CacheSurvives(data: seq<byte>, B: nat, w: Entry, p: Position, cache: seq<byte>)
    requires 0 < B < TWO32 && Laid(data, 0, B) && OnTrack(data, B, p) && p.loaded
    requires p.off <= B && CacheOf(Block(data, p.start, B), cache, p.off)
    ensures CacheOf(Block(Append(data, B, w.time, w.payload), p.start, B), cache, p.off)
  {
    hide Look, Laid, Added;
    var block := Block(data, p.start, B);
    var grown := Block(Append(data, B, w.time, w.payload), p.start, B);
    NextBlockGrows(data, Added(data, B, w.time, w.payload), p.start, B);
    assert grown[..|cache|] == block[..|cache|];
    if cache == block && |block| == B {
      assert grown == block;
    } else if cache == block && p.off < |cache| {
      TrackBoundary(data, B, p);
      LaidFrom(data, p.start, B);
      LastIsRecords(data, p.start, B);
    }
  }

  lemma {:induction false} EndFromRecord(block: seq<byte>, off: nat, base: nat, i: nat)
    requires off <= |block| && i < |Scan(block, off, base)| && Scan(block, off, base)[i].Record?
    ensures var o := Scan(block, off, base)[i].offset;
            base + off <= o <= base + |block| && End(block, o - base) == End(block, off)
    decreases i
  {
    hide Look;
    if i > 0 {
      EndFromRecord(block, off + 6 + Look(block, off).len, base, i - 1);
    }
  }

  /** A fresh iterator at the offset of a record, or at the start of the log, follows the log. */
  lemma {:induction false} OffsetOnTrack(data: seq<byte>, start: nat, B: nat, i: nat)
    requires 0 < B && Boundary(start, B) && Laid(data, start, B)
    requires i < |Blocks(data, start, B)| && Blocks(data, start, B)[i].Record?
    ensures var n := Blocks(data, start, B)[i].offset - DATA_OFFSET;
            0 <= n && OnTrack(data, B, Position(StartOf(n, B), n % B, false))
    decreases |data| - start
  {
    hide Look, Scan, Laid, Tidy, Blocks, OnTrack;
    NothingBeyond(data, start, B);
    LaidTail(data, start, B);
    var block := Block(data, start, B);
    var here := ScanBlock(block, DATA_OFFSET + start);
    if i < |here| {
      RecordOnTrack(data, start, B, i);
    } else {
      NextBoundary(start, B);
      OffsetOnTrack(data, start + B, B, i - |here|);
    }
  }

  lemma RecordOnTrack(data: seq<byte>, start: nat, B: nat, i: nat)
    requires 0 < B && Boundary(start, B) && start < |data|
    requires BLOCK_HEAD <= |Block(data, start, B)| && Block(data, start, B)[0] == BLOCK_MAGIC
    requires i < |ScanBlock(Block(data, start, B), DATA_OFFSET + start)|
    requires ScanBlock(Block(data, start, B), DATA_OFFSET + start)[i].Record?
    ensures var n := ScanBlock(Block(data, start, B), DATA_OFFSET + start)[i].offset - DATA_OFFSET;
            0 <= n && OnTrack(data, B, Position(StartOf(n, B), n % B, false))
  {
    hide Look, Scan;
    var block := Block(data, start, B);
    ScanSuffix(block, BLOCK_HEAD, DATA_OFFSET + start, i);
    EndFromRecord(block, BLOCK_HEAD, DATA_OFFSET + start, i);
    BoundaryMod(ScanBlock(block, DATA_OFFSET + start)[i].offset - DATA_OFFSET, start, B);
  }

  lemma StartOnTrack(data: seq<byte>, B: nat)
    requires 0 < B && Laid(data, 0, B)
    ensures OnTrack(data, B, Position(0, 0, false))
  {
    hide Look;
  }
}

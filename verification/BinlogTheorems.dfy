/** The laws of the block log: writing and reading undo each other, damage stays inside its block, offsets
    lead back to their records, and a reader can follow a growing log. */
module BinlogTheorems {
  import opened Bytes
  import opened BinlogFormat
  import opened BinlogLayout

  // ----- whatever the bytes, a delivered record is a frame inside one block

  /** The record at file offset `offset` is a frame between offset `from` of the block at `start` and the end of
      that block. */
  ghost predicate FrameFrom(data: seq<byte>, B: nat, start: nat, from: nat, offset: nat, payload: seq<byte>) {
    && DATA_OFFSET + start + from <= offset
    && offset + 6 + |payload| <= DATA_OFFSET + start + B
    && offset + 6 + |payload| <= DATA_OFFSET + |data|
    && data[offset - DATA_OFFSET..offset - DATA_OFFSET + 6 + |payload|] == Frame(payload)
  }

  ghost predicate FrameInBlock(data: seq<byte>, B: nat, start: nat, offset: nat, payload: seq<byte>) {
    FrameFrom(data, B, start, BLOCK_HEAD, offset, payload)
  }

  lemma {:induction false} ScanHoldsFrames(block: seq<byte>, off: nat, base: nat, i: nat)
    requires i < |Scan(block, off, base)| && Scan(block, off, base)[i].Record?
    ensures var r := Scan(block, off, base)[i];
            && base + off <= r.offset && r.offset + 6 + |r.payload| <= base + |block|
            && block[r.offset - base..r.offset - base + 6 + |r.payload|] == Frame(r.payload)
    decreases i
  {
    hide Look, Frame;
    var len := Look(block, off).len;
    if i == 0 {
      FoundIsSmall(block, off);
      LookIsFrame(block, off, len);
    } else {
      ScanHoldsFrames(block, off + 6 + len, base, i - 1);
    }
  }

  lemma FoundIsSmall(block: seq<byte>, off: nat)
    requires off < |block| && Look(block, off).Found?
    ensures 6 + Look(block, off).len < TWO32
  {
  }

  lemma HereAreFrames(data: seq<byte>, B: nat, start: nat, from: nat, i: nat)
    requires 0 < B
    requires i < |Scan(Block(data, start, B), from, DATA_OFFSET + start)|
    requires Scan(Block(data, start, B), from, DATA_OFFSET + start)[i].Record?
    ensures var r := Scan(Block(data, start, B), from, DATA_OFFSET + start)[i];
            FrameFrom(data, B, start, from, r.offset, r.payload)
  {
    hide Scan, Frame, Look;
    var block := Block(data, start, B);
    NotEmpty(data, B, start, from, i);
    ScanHoldsFrames(block, from, DATA_OFFSET + start, i);
    var r := Scan(block, from, DATA_OFFSET + start)[i];
    var o := r.offset - DATA_OFFSET - start;
    assert block == data[start..start + |block|];
    SubSlice(data, start, start + |block|, o, o + 6 + |r.payload|);
    assert start + o == r.offset - DATA_OFFSET
           && start + (o + 6 + |r.payload|) == r.offset - DATA_OFFSET + 6 + |r.payload|;
  }

  lemma NotEmpty(data: seq<byte>, B: nat, start: nat, from: nat, i: nat)
    requires i < |Scan(Block(data, start, B), from, DATA_OFFSET + start)|
    ensures start < |data|
  {
  }

  /** On any bytes at all, every record delivered from a block boundary on is a well-formed frame that lies
      between the head and the end of one block, at the offset reported for it. */
  lemma {:induction false} DeliveredAreFrames(data: seq<byte>, start: nat, B: nat, i: nat) returns (s: nat)
    requires 0 < B && Boundary(start, B)
    requires i < |Blocks(data, start, B)| && Blocks(data, start, B)[i].Record?
    ensures start <= s && Boundary(s, B)
    ensures FrameInBlock(data, B, s, Blocks(data, start, B)[i].offset, Blocks(data, start, B)[i].payload)
    decreases |data| - start
  {
    hide Scan, FrameFrom, Block;
    var here := ScanBlock(Block(data, start, B), DATA_OFFSET + start);
    if i < |here| {
      s := start;
      HereAreFrames(data, B, start, BLOCK_HEAD, i);
    } else {
      NextBoundary(start, B);
      s := DeliveredAreFrames(data, start + B, B, i - |here|);
    }
  }

  /** Where a reader resumes scanning its block. */
  function ResumeAt(off: nat, loaded: bool): nat {
    if !loaded && off < BLOCK_HEAD then BLOCK_HEAD else off
  }

  /** The item comes from the reader's own block, or from a later one. */
  lemma ItemOrigin(data: seq<byte>, B: nat, start: nat, off: nat, loaded: bool, i: nat) returns (skipped: nat)
    requires 0 < B
    requires i < |Remaining(data, B, start, off, loaded)| && Remaining(data, B, start, off, loaded)[i].Record?
    ensures var here := Scan(Block(data, start, B), ResumeAt(off, loaded), DATA_OFFSET + start);
            || (skipped == 0 && i < |here| && off < B && here[i] == Remaining(data, B, start, off, loaded)[i])
            || (skipped <= i && i - skipped < |Blocks(data, start + B, B)|
                && Blocks(data, start + B, B)[i - skipped] == Remaining(data, B, start, off, loaded)[i])
  {
    hide Scan, Blocks, Look;
    var block := Block(data, start, B);
    var here := Scan(block, ResumeAt(off, loaded), DATA_OFFSET + start);
    skipped := if off < B && (loaded || block[0] == BLOCK_MAGIC) && |here| <= i then |here| else 0;
  }

  /** The same for a reader in any state on any bytes: in its own block it delivers frames from where it resumes
      on, which is behind the block head if it has yet to read that. */
  lemma ReaderDeliversFrames(data: seq<byte>, B: nat, start: nat, off: nat, loaded: bool, i: nat) returns (s: nat)
    requires 0 < B && Boundary(start, B)
    requires i < |Remaining(data, B, start, off, loaded)| && Remaining(data, B, start, off, loaded)[i].Record?
    ensures var r := Remaining(data, B, start, off, loaded)[i];
            && start <= s && Boundary(s, B)
            && (s == start ==> off < B && FrameFrom(data, B, s, ResumeAt(off, loaded), r.offset, r.payload))
            && (s > start ==> FrameInBlock(data, B, s, r.offset, r.payload))
  {
    hide Remaining, Scan, Blocks, FrameFrom, Block, ResumeAt;
    NextBoundary(start, B);
    var here := Scan(Block(data, start, B), ResumeAt(off, loaded), DATA_OFFSET + start);
    var skipped := ItemOrigin(data, B, start, off, loaded, i);
    if skipped == 0 && i < |here| && off < B && here[i] == Remaining(data, B, start, off, loaded)[i] {
      s := start;
      HereAreFrames(data, B, start, ResumeAt(off, loaded), i);
    } else {
      s := DeliveredAreFrames(data, start + B, B, i - skipped);
    }
  }

  // ----- writing, then reading

  datatype Entry = Entry(time: nat, payload: seq<byte>)

  predicate Accepted(B: nat, payload: seq<byte>) {
    RealSize(payload) <= B
  }

  /** A payload is accepted if its frame of 6 bytes more fits a block; one of 2^32 - 6 bytes and more is so much
      longer than the log takes it for. */
  lemma AcceptedIff(B: nat, payload: seq<byte>, wraps: nat)
    requires 0 <= 6 + |payload| - wraps * 0x1_0000_0000 < 0x1_0000_0000
    ensures Accepted(B, payload) <==> 6 + |payload| - wraps * 0x1_0000_0000 <= B
  {
    ModUnique(6 + |payload|, 0x1_0000_0000, wraps, 6 + |payload| - wraps * 0x1_0000_0000);
  }

  /** The bytes behind the head of a created log after a run of writes. */
  function Written(B: nat, writes: seq<Entry>): seq<byte>
    requires 0 < B
  {
    if writes == [] then []
    else
      var data, w := Written(B, writes[..|writes| - 1]), writes[|writes| - 1];
      if Accepted(B, w.payload) then Append(data, B, w.time, w.payload) else data
  }

  /** The accepted payloads, each at the offset its write returned. */
  function Records(B: nat, writes: seq<Entry>): seq<Item>
    requires 0 < B
  {
    if writes == [] then []
    else
      var data, w := Written(B, writes[..|writes| - 1]), writes[|writes| - 1];
      Records(B, writes[..|writes| - 1]) +
      if Accepted(B, w.payload) then [Record(AppendOffset(data, B, w.payload), w.payload)] else []
  }

  predicate Fits(B: nat, payload: seq<byte>) {
    14 + |payload| <= B
  }

  /** Every accepted payload leaves room for the block head. */
  predicate AllFit(B: nat, writes: seq<Entry>) {
    forall i :: 0 <= i < |writes| && Accepted(B, writes[i].payload) ==> Fits(B, writes[i].payload)
  }

  lemma {:induction false} WrittenIsLaid(B: nat, writes: seq<Entry>)
    requires 0 < B < TWO32 && AllFit(B, writes)
    ensures Laid(Written(B, writes), 0, B)
    ensures Blocks(Written(B, writes), 0, B) == Records(B, writes)
  {
    hide Laid, Append, Blocks;
    if writes == [] {
      EmptyLog(B);
    } else {
      var n := |writes| - 1;
      var w := writes[n];
      WrittenIsLaid(B, writes[..n]);
      if Accepted(B, w.payload) {
        AppendLaid(Written(B, writes[..n]), 0, B, w.time, w.payload);
      }
    }
  }

  lemma EmptyLog(B: nat)
    requires 0 < B
    ensures Laid([], 0, B) && Blocks([], 0, B) == [] && Boundary(0, B)
  {
  }

  /** Reading a created log from its start delivers exactly the accepted payloads, in order, at the offsets the
      writes returned, and then the end of file, if and only if every accepted payload leaves 8 bytes of its
      block to the block head. The size check of Write forgets those 8 bytes. */
  lemma RoundTrip(B: nat, writes: seq<Entry>)
    requires 0 < B < TWO32
    ensures Blocks(Written(B, writes), 0, B) == Records(B, writes) <==> AllFit(B, writes)
  {
    hide Written, Records, Blocks;
    if AllFit(B, writes) {
      WrittenIsLaid(B, writes);
    }
    if Blocks(Written(B, writes), 0, B) == Records(B, writes) {
      EmptyLog(B);
      forall i | 0 <= i < |writes| && Accepted(B, writes[i].payload)
        ensures Fits(B, writes[i].payload)
      {
        var j := RecordOf(B, writes, i);
        var s := DeliveredAreFrames(Written(B, writes), 0, B, j);
      }
    }
  }

  lemma {:induction false} RecordOf(B: nat, writes: seq<Entry>, i: nat) returns (j: nat)
    requires 0 < B && i < |writes| && Accepted(B, writes[i].payload)
    ensures j < |Records(B, writes)| && Records(B, writes)[j].Record?
            && Records(B, writes)[j].payload == writes[i].payload
  {
    var n := |writes| - 1;
    if i == n {
      j := |Records(B, writes[..n])|;
    } else {
      j := RecordOf(B, writes[..n], i);
    }
  }

  /** A log that loses its payload: the record is accepted, fills the block to the last byte, and the block head
      pushes it over the edge. */
  lemma EightBytesShort(B: nat, time: nat, payload: seq<byte>)
    requires 6 <= B < TWO32 && |payload| == B - 6
    ensures Accepted(B, payload)
    ensures Blocks(Written(B, [Entry(time, payload)]), 0, B) != Records(B, [Entry(time, payload)])
  {
    var writes := [Entry(time, payload)];
    assert writes[0].payload == payload;
    RoundTrip(B, writes);
  }

  /** Offsets of successive accepted writes grow by at least the size of a frame. */
  lemma OffsetsAdvance(data: seq<byte>, B: nat, time: nat, payload: seq<byte>, next: seq<byte>)
    requires 0 < B < TWO32
    ensures DATA_OFFSET + |data| <= AppendOffset(data, B, payload)
    ensures AppendOffset(data, B, payload) + 6 + |payload| == DATA_OFFSET + |Append(data, B, time, payload)|
    ensures AppendOffset(data, B, payload) + 6 + |payload| <= AppendOffset(Append(data, B, time, payload), B, next)
  {
  }

  // ----- from an offset

  lemma {:induction false} ScanSuffix(block: seq<byte>, off: nat, base: nat, i: nat)
    requires i < |Scan(block, off, base)| && Scan(block, off, base)[i].Record?
    ensures var o := Scan(block, off, base)[i].offset;
            && base + off <= o < base + |block| && Scan(block, o - base, base) == Scan(block, off, base)[i..]
    decreases i
  {
    hide Look;
    if i > 0 {
      var len := Look(block, off).len;
      ScanSuffix(block, off + 6 + len, base, i - 1);
      assert Scan(block, off, base)[1..] == Scan(block, off + 6 + len, base);
      assert Scan(block, off, base)[1..][i - 1..] == Scan(block, off, base)[i..];
    }
  }

  function StartOf(n: nat, B: nat): (start: nat)
    requires 0 < B
  {
    assert 0 <= n / B * B;
    n / B * B
  }

  /** A fresh iterator at file offset `offset` delivers `items`. */
  predicate ReadsFrom(data: seq<byte>, B: nat, offset: nat, items: seq<Item>)
    requires 0 < B
  {
    && DATA_OFFSET <= offset
    && Remaining(data, B, StartOf(offset - DATA_OFFSET, B), (offset - DATA_OFFSET) % B, false) == items
  }

  /** A fresh iterator at the offset a write returned delivers that record and all later ones. */
  lemma {:induction false} OffsetLeadsBack(data: seq<byte>, start: nat, B: nat, i: nat)
    requires 0 < B && Boundary(start, B) && Laid(data, start, B)
    requires i < |Blocks(data, start, B)| && Blocks(data, start, B)[i].Record?
    ensures ReadsFrom(data, B, Blocks(data, start, B)[i].offset, Blocks(data, start, B)[i..])
    decreases |data| - start
  {
    hide Scan, Tidy, Laid, ReadsFrom, Blocks, ScanBlock, Block, Boundary;
    NothingBeyond(data, start, B);
    LaidTail(data, start, B);
    var here := ScanBlock(Block(data, start, B), DATA_OFFSET + start);
    if i < |here| {
      OffsetInBlock(data, start, B, i);
      assert here[i..] + Blocks(data, start + B, B) == Blocks(data, start, B)[i..];
    } else {
      NextBoundary(start, B);
      OffsetLeadsBack(data, start + B, B, i - |here|);
      assert Blocks(data, start, B)[i..] == Blocks(data, start + B, B)[i - |here|..];
    }
  }

  lemma NothingBeyond(data: seq<byte>, start: nat, B: nat)
    requires 0 < B && Blocks(data, start, B) != []
    ensures start < |data|
  {
  }

  lemma OffsetInBlock(data: seq<byte>, start: nat, B: nat, i: nat)
    requires 0 < B && Boundary(start, B) && start < |data| && BLOCK_HEAD <= |Block(data, start, B)|
    requires !Stuck(ScanBlock(Block(data, start, B), DATA_OFFSET + start))
    requires Block(data, start, B)[0] == BLOCK_MAGIC
    requires i < |ScanBlock(Block(data, start, B), DATA_OFFSET + start)|
    requires ScanBlock(Block(data, start, B), DATA_OFFSET + start)[i].Record?
    ensures var here := ScanBlock(Block(data, start, B), DATA_OFFSET + start);
            ReadsFrom(data, B, here[i].offset, here[i..] + Blocks(data, start + B, B))
  {
    hide Scan, Blocks;
    var block := Block(data, start, B);
    var here := ScanBlock(block, DATA_OFFSET + start);
    ScanSuffix(block, BLOCK_HEAD, DATA_OFFSET + start, i);
    BoundaryMod(here[i].offset - DATA_OFFSET, start, B);
    NotStuckSuffix(here, i);
  }

  lemma NotStuckSuffix(items: seq<Item>, i: nat)
    requires i <= |items| && !Stuck(items)
    ensures !Stuck(items[i..])
  {
  }

  // ----- damage

  /** The two files differ at most inside the block at `start`. */
  ghost predicate DifferOnlyIn(data: seq<byte>, damaged: seq<byte>, start: nat, B: nat) {
    |damaged| == |data| && forall i :: 0 <= i < |data| && !(start <= i < start + B) ==> damaged[i] == data[i]
  }

  /** Everything delivered from the blocks between two boundaries. */
  function Between(data: seq<byte>, start: nat, stop: nat, B: nat): seq<Item>
    requires 0 < B
    decreases stop - start
  {
    if start >= stop || |Block(data, start, B)| < BLOCK_HEAD then []
    else ScanBlock(Block(data, start, B), DATA_OFFSET + start) + Between(data, start + B, stop, B)
  }

  lemma {:induction false} SplitAt(data: seq<byte>, start: nat, stop: nat, B: nat)
    requires 0 < B && Boundary(start, B) && Boundary(stop, B) && start <= stop <= |data| && Laid(data, start, B)
    ensures Blocks(data, start, B) == Between(data, start, stop, B) + Blocks(data, stop, B)
    ensures Laid(data, stop, B)
    decreases stop - start
  {
    hide Scan, Tidy, Laid, Blocks, ScanBlock, Block, Boundary;
    if start < stop {
      BoundariesApart(start, stop, B);
      NextBoundary(start, B);
      LaidTail(data, start, B);
      SplitAt(data, start + B, stop, B);
    }
  }

  lemma BoundariesApart(start: nat, stop: nat, B: nat)
    requires 0 < B && Boundary(start, B) && Boundary(stop, B) && start < stop
    ensures start + B <= stop
  {
    if stop < start + B {
      BoundaryMod(stop, start, B);
    }
  }

  lemma {:induction false} BlocksAgree(data: seq<byte>, other: seq<byte>, start: nat, B: nat)
    requires 0 < B && |data| == |other| && forall i :: start <= i < |data| ==> data[i] == other[i]
    ensures Blocks(data, start, B) == Blocks(other, start, B)
    decreases |data| - start
  {
    if start < |data| {
      assert Block(data, start, B) == Block(other, start, B);
      BlocksAgree(data, other, start + B, B);
    }
  }

  /** In front of the damage nothing changes. */
  lemma {:induction false} DamageComesLater(data: seq<byte>, damaged: seq<byte>, start: nat, bad: nat, B: nat)
    requires 0 < B && Boundary(start, B) && Boundary(bad, B) && start <= bad < |data| && Laid(data, start, B)
    requires DifferOnlyIn(data, damaged, bad, B)
    ensures Blocks(damaged, start, B) == Between(data, start, bad, B) + Blocks(damaged, bad, B)
    decreases bad - start
  {
    hide Scan, Tidy, Laid, Blocks, ScanBlock, Block, Boundary;
    if start < bad {
      BoundariesApart(start, bad, B);
      NextBoundary(start, B);
      LaidTail(data, start, B);
      BlockUndamaged(data, damaged, start, bad, B);
      UnfoldBlocks(damaged, start, B);
      DamageComesLater(data, damaged, start + B, bad, B);
    }
  }

  /** Behind a good head and whole records, the block has a start byte whose length wraps 32 bits. */
  predicate HoldsWrap(block: seq<byte>) {
    && BLOCK_HEAD <= |block| && block[0] == BLOCK_MAGIC
    && End(block, BLOCK_HEAD) < |block| && Look(block, End(block, BLOCK_HEAD)) == Wraps
  }

  lemma {:induction false} StuckAtWrap(block: seq<byte>, off: nat, base: nat)
    requires off <= |block|
    ensures Stuck(Scan(block, off, base)) <==> End(block, off) < |block| && Look(block, End(block, off)) == Wraps
    decreases |block| - off
  {
    hide Look;
    if off < |block| && Look(block, off).Found? {
      var rest := Scan(block, off + 6 + Look(block, off).len, base);
      StuckAtWrap(block, off + 6 + Look(block, off).len, base);
      assert rest != [] ==> Scan(block, off, base)[|rest|] == rest[|rest| - 1];
    }
  }

  lemma StuckIsWrap(data: seq<byte>, start: nat, B: nat)
    requires 0 < B
    ensures Stuck(BlockItems(data, start, B)) <==> HoldsWrap(Block(data, start, B))
  {
    hide Look, Scan, End, Block;
    if BLOCK_HEAD <= |Block(data, start, B)| {
      StuckAtWrap(Block(data, start, B), BLOCK_HEAD, DATA_OFFSET + start);
    }
  }

  /** Replace the bytes of one block by anything: every record of the earlier blocks is still delivered, the
      damaged block delivers what it now holds, and every record of the later blocks is still delivered, if and
      only if the damaged bytes hold no length that wraps 32 bits right behind whole records, or there was nothing
      later. */
  lemma DamageIsContained(data: seq<byte>, damaged: seq<byte>, bad: nat, B: nat,
                          earlier: seq<Item>, was: seq<Item>, now: seq<Item>, later: seq<Item>)
    requires 0 < B && Boundary(bad, B) && bad < |data| && Laid(data, 0, B) && DifferOnlyIn(data, damaged, bad, B)
    requires earlier == Between(data, 0, bad, B) && later == Blocks(data, bad + B, B)
    requires was == BlockItems(data, bad, B) && now == BlockItems(damaged, bad, B)
    ensures Blocks(data, 0, B) == earlier + was + later
    ensures Blocks(damaged, 0, B) == earlier + now + later <==> !HoldsWrap(Block(damaged, bad, B)) || later == []
    ensures HoldsWrap(Block(damaged, bad, B)) ==> Blocks(damaged, 0, B) == earlier + now
  {
    hide Scan, Laid, Blocks, BlockItems, Tidy, Boundary, Between, Block, HoldsWrap, Stuck;
    EmptyLog(B);
    SplitAt(data, 0, bad, B);
    BlockSplits(data, bad, B);
    DamageComesLater(data, damaged, 0, bad, B);
    BlocksAgree(data, damaged, bad + B, B);
    SameSize(data, damaged, bad, B);
    UnfoldBlocks(damaged, bad, B);
    StuckIsWrap(damaged, bad, B);
    assert earlier + (was + later) == earlier + was + later;
    assert earlier + (now + later) == earlier + now + later;
    assert later == [] ==> earlier + now + later == earlier + now;
  }

  lemma BlockSplits(data: seq<byte>, start: nat, B: nat)
    requires 0 < B && Laid(data, start, B) && start < |data|
    ensures BLOCK_HEAD <= |Block(data, start, B)|
    ensures Blocks(data, start, B) == BlockItems(data, start, B) + Blocks(data, start + B, B)
  {
    hide Laid, Blocks, ScanBlock, Block, Stuck, Tidy;
    LaidTail(data, start, B);
    UnfoldBlocks(data, start, B);
  }

  /** A log of two records that loses both to five damaged bytes in its first block. */
  lemma WrapLosesLater(B: nat, a: Entry, b: Entry) returns (data: seq<byte>, damaged: seq<byte>)
    requires 14 <= B < TWO32 && |a.payload| + 14 == |b.payload| + 14 == B
    ensures data == Written(B, [a, b]) && Laid(data, 0, B) && DifferOnlyIn(data, damaged, 0, B)
    ensures Blocks(data, 0, B) == [Record(DATA_OFFSET + 8, a.payload), Record(DATA_OFFSET + B + 8, b.payload)]
    ensures Blocks(damaged, 0, B) == [Overflow(DATA_OFFSET + 8)]
  {
    hide Laid, Blocks, BlockItems, Between, Block, Written;
    data := TwoFullBlocks(B, a, b);
    damaged := data[..8] + [SMAGIC, 0xFF, 0xFF, 0xFF, 0xFF] + data[13..];
    FirstBlock(data, damaged, B);
    WrapIsFirst(Block(damaged, 0, B), DATA_OFFSET);
    EmptyLog(B);
    UnfoldBlocks(damaged, 0, B);
    DamageIsContained(data, damaged, 0, B, Between(data, 0, 0, B), BlockItems(data, 0, B), BlockItems(damaged, 0, B),
                      Blocks(data, B, B));
    NothingBetween(data, B);
  }

  lemma NothingBetween(data: seq<byte>, B: nat)
    requires 0 < B
    ensures Between(data, 0, 0, B) == []
  {
  }

  lemma FirstBlock(data: seq<byte>, damaged: seq<byte>, B: nat)
    requires 14 <= B && |data| == 2 * B && Laid(data, 0, B)
    requires damaged == data[..8] + [SMAGIC, 0xFF, 0xFF, 0xFF, 0xFF] + data[13..]
    ensures DifferOnlyIn(data, damaged, 0, B)
    ensures |Block(damaged, 0, B)| == B && Block(damaged, 0, B)[0] == BLOCK_MAGIC
    ensures Block(damaged, 0, B)[8..13] == [SMAGIC, 0xFF, 0xFF, 0xFF, 0xFF]
  {
    hide Laid, Blocks, Tidy, Scan, ScanBlock;
    LaidTail(data, 0, B);
    assert damaged[0] == data[0] == Block(data, 0, B)[0];
    assert Block(damaged, 0, B) == damaged[..B];
    assert damaged[..B][8..13] == damaged[8..13];
  }

  lemma WrapIsFirst(block: seq<byte>, base: nat)
    requires 14 <= |block| && block[0] == BLOCK_MAGIC && block[8..13] == [SMAGIC, 0xFF, 0xFF, 0xFF, 0xFF]
    ensures HoldsWrap(block) && ScanBlock(block, base) == [Overflow(base + 8)]
  {
    hide FromBigEndian;
    assert block[9..13] == block[8..13][1..] == [0xFF, 0xFF, 0xFF, 0xFF];
    AllOnes();
    assert block[8] == block[8..13][0];
  }

  lemma AllOnes()
    ensures FromBigEndian([0xFF, 0xFF, 0xFF, 0xFF]) == TWO32 - 1
  {
    Split4([0xFF, 0xFF, 0xFF, 0xFF]);
  }

  lemma TwoFullBlocks(B: nat, a: Entry, b: Entry) returns (data: seq<byte>)
    requires 14 <= B < TWO32 && |a.payload| + 14 == |b.payload| + 14 == B
    ensures data == Written(B, [a, b]) && Laid(data, 0, B) && |data| == 2 * B
    ensures Blocks(data, 0, B) == [Record(DATA_OFFSET + 8, a.payload), Record(DATA_OFFSET + B + 8, b.payload)]
  {
    hide Laid, Blocks, Append, AppendOffset, Accepted;
    data := Written(B, [a, b]);
    assert [a, b][..1] == [a] && [a][..0] == [];
    FullBlock([], B, a, 0);
    FullBlock(Append([], B, a.time, a.payload), B, b, 1);
    assert AllFit(B, [a, b]);
    WrittenIsLaid(B, [a, b]);
    assert Written(B, []) == [] && Records(B, []) == [];
    assert Records(B, [a]) == [Record(DATA_OFFSET + 8, a.payload)];
  }

  /** A record that fills a block exactly, on a log of k full blocks. */
  lemma FullBlock(data: seq<byte>, B: nat, w: Entry, k: nat)
    requires 14 <= B < TWO32 && |data| == k * B && |w.payload| + 14 == B
    ensures Accepted(B, w.payload) && AppendOffset(data, B, w.payload) == DATA_OFFSET + |data| + 8
    ensures |Append(data, B, w.time, w.payload)| == |data| + B
  {
    ModUnique(|data|, B, k, 0);
  }

  /** What the block at `start` alone delivers. */
  function BlockItems(data: seq<byte>, start: nat, B: nat): seq<Item>
    requires 0 < B
  {
    var block := Block(data, start, B);
    if |block| < BLOCK_HEAD then [] else ScanBlock(block, DATA_OFFSET + start)
  }

  lemma UnfoldBlocks(data: seq<byte>, start: nat, B: nat)
    requires 0 < B && start < |data| && BLOCK_HEAD <= |Block(data, start, B)|
    ensures BlockItems(data, start, B) == ScanBlock(Block(data, start, B), DATA_OFFSET + start)
    ensures Blocks(data, start, B) == Then(BlockItems(data, start, B), Blocks(data, start + B, B))
  {
    hide Scan;
  }

  lemma SameSize(data: seq<byte>, other: seq<byte>, start: nat, B: nat)
    requires 0 < B && |data| == |other|
    ensures |Block(data, start, B)| == |Block(other, start, B)|
  {
  }

  lemma BlockUndamaged(data: seq<byte>, damaged: seq<byte>, start: nat, bad: nat, B: nat)
    requires 0 < B && DifferOnlyIn(data, damaged, bad, B) && start + B <= bad
    ensures Block(damaged, start, B) == Block(data, start, B)
  {
  }
}

/** What Binlog::Write leaves on disk, and what a reader makes of it. */
module BinlogLayout {
  import opened Bytes
  import opened BinlogFormat

  /** The block a write opens when it has to. */
  function FreshBlock(time: nat, payload: seq<byte>): seq<byte> {
    BlockHead(time) + Frame(payload)
  }

  /** The 32-bit size of a frame; a write is refused when it exceeds the block size. */
  function RealSize(payload: seq<byte>): nat {
    (6 + |payload|) % TWO32
  }

  /** What an accepted write adds to the bytes behind the file head. */
  function Added(data: seq<byte>, B: nat, time: nat, payload: seq<byte>): seq<byte>
    requires 0 < B
  {
    var remain := B - |data| % B;
    if remain == B then FreshBlock(time, payload)
    else if remain < RealSize(payload) then Zeros(remain) + FreshBlock(time, payload)
    else Frame(payload)
  }

  function Append(data: seq<byte>, B: nat, time: nat, payload: seq<byte>): seq<byte>
    requires 0 < B
  {
    data + Added(data, B, time, payload)
  }

  /** Where the frame of that write begins. */
  function AppendOffset(data: seq<byte>, B: nat, payload: seq<byte>): nat
    requires 0 < B
  {
    DATA_OFFSET + |data| +
    (var remain := B - |data| % B;
     if remain == B then BLOCK_HEAD else if remain < RealSize(payload) then remain + BLOCK_HEAD else 0)
  }

  predicate Boundary(start: nat, B: nat)
    requires 0 < B
  {
    start % B == 0
  }

  /** What follows the records of a block: nothing in the last one, otherwise zeros, and fewer of them than the
      record that opens the next block needed. */
  predicate Tidy(block: seq<byte>, next: seq<byte>) {
    && BLOCK_HEAD <= |block| && block[0] == BLOCK_MAGIC
    && var end := End(block, BLOCK_HEAD);
       if next == [] then end == |block|
       else
         && block[end..] == Zeros(|block| - end)
         && BLOCK_HEAD < |next| && Look(next, BLOCK_HEAD).Found?
         && |block| - end < 6 + Look(next, BLOCK_HEAD).len
  }

  /** From `start` on every block begins with a head, is filled with whole records, and is tidy behind them. */
  predicate Laid(data: seq<byte>, start: nat, B: nat)
    requires 0 < B
    decreases |data| - start
  {
    start >= |data| || (Tidy(Block(data, start, B), Block(data, start + B, B)) && Laid(data, start + B, B))
  }

  // ----- arithmetic of boundaries

  lemma BoundaryMod(n: nat, start: nat, B: nat)
    requires 0 < B && Boundary(start, B) && start <= n < start + B
    ensures n % B == n - start && start == n / B * B
  {
    var k := start / B;
    assert n == k * B + (n - start);
    ModUnique(n, B, k, n - start);
    DivUnique(n, B, k, n - start);
  }

  lemma DivUnique(n: nat, m: nat, k: nat, r: nat)
    requires r < m && n == k * m + r
    ensures n / m == k
  {
    ModUnique(n, m, k, r);
    var q := n / m;
    assert q * m == k * m;
    if q < k {
      MulMono(q + 1, k, m);
    } else if k < q {
      MulMono(k + 1, q, m);
    }
  }

  lemma NextBoundary(start: nat, B: nat)
    requires 0 < B && Boundary(start, B)
    ensures Boundary(start + B, B)
  {
    var k := start / B;
    assert start + B == (k + 1) * B + 0;
    ModUnique(start + B, B, k + 1, 0);
  }

  // ----- blocks of a file that grows

  lemma BlockKept(data: seq<byte>, more: seq<byte>, start: nat, B: nat)
    requires 0 < B && start + B <= |data|
    ensures Block(data + more, start, B) == Block(data, start, B)
  {
  }

  /** The last block of a file takes the bytes appended to the file. */
  lemma BlockGrowsWhole(data: seq<byte>, more: seq<byte>, start: nat, B: nat)
    requires 0 < B && start <= |data| && |data| + |more| <= start + B
    ensures Block(data + more, start, B) == data[start..] + more
  {
  }

  // ----- one more record

  lemma {:induction false} EndNotStuck(block: seq<byte>, off: nat, base: nat)
    requires off <= |block| && (End(block, off) < |block| ==> block[End(block, off)] == 0)
    ensures !Stuck(Scan(block, off, base))
    decreases |block| - off
  {
    if off < |block| && Look(block, off).Found? {
      EndNotStuck(block, off + 6 + Look(block, off).len, base);
    }
  }

  lemma TidyNotStuck(block: seq<byte>, next: seq<byte>, base: nat)
    requires Tidy(block, next)
    ensures !Stuck(ScanBlock(block, base))
  {
    var end := End(block, BLOCK_HEAD);
    if end < |block| {
      assert block[end..][0] == block[end];
    }
    EndNotStuck(block, BLOCK_HEAD, base);
  }

  lemma FreshBlockHolds(time: nat, payload: seq<byte>, base: nat)
    requires 14 + |payload| < TWO32
    ensures var first := FreshBlock(time, payload);
            && |first| == 14 + |payload| && first[0] == BLOCK_MAGIC
            && ScanBlock(first, base) == [Record(base + BLOCK_HEAD, payload)]
            && End(first, BLOCK_HEAD) == |first| && Look(first, BLOCK_HEAD) == Found(|payload|)
  {
    hide Frame, BlockHead, Look;
    var head := BlockHead(time);
    ScanAppended(head, payload, BLOCK_HEAD, base);
    var first := FreshBlock(time, payload);
    assert first[BLOCK_HEAD..BLOCK_HEAD + 6 + |payload|] == Frame(payload);
    FrameFound(first, BLOCK_HEAD, payload);
    assert Scan(head, BLOCK_HEAD, base) == [];
  }

  /** The first record of the next block is still there when that block grows. */
  lemma TidyGrows(block: seq<byte>, next: seq<byte>, more: seq<byte>)
    requires Tidy(block, next) && next != []
    ensures Tidy(block, next + more)
  {
    hide Look, End;
    LookGrows(next, more, BLOCK_HEAD);
  }

  /** The last block of a log: the write extends it, pads it and opens the next, or opens the next. */
  lemma AppendToLast(data: seq<byte>, start: nat, B: nat, time: nat, payload: seq<byte>)
    requires 0 < B < TWO32 && Boundary(start, B) && start < |data| < start + B && Laid(data, start, B)
    requires 14 + |payload| <= B
    ensures Laid(Append(data, B, time, payload), start, B)
    ensures Blocks(Append(data, B, time, payload), start, B)
         == Blocks(data, start, B) + [Record(AppendOffset(data, B, payload), payload)]
  {
    hide Laid, Blocks, FreshBlock, Frame, Zeros;
    BoundaryMod(|data|, start, B);
    var remain := start + B - |data|;
    if remain < 6 + |payload| {
      AppendPadded(data, start, B, time, payload);
    } else {
      AppendFitting(data, start, B, payload);
    }
  }

  lemma AppendFitting(data: seq<byte>, start: nat, B: nat, payload: seq<byte>)
    requires 0 < B < TWO32 && start < |data| && |data| + 6 + |payload| <= start + B && Laid(data, start, B)
    ensures Laid(data + Frame(payload), start, B)
    ensures Blocks(data + Frame(payload), start, B)
         == Blocks(data, start, B) + [Record(DATA_OFFSET + |data|, payload)]
  {
    hide Laid, Blocks, Frame, Look, Scan, End, Block, Tidy;
    var block := data[start..];
    var grown := data + Frame(payload);
    LastIsRecords(data, start, B);
    ScanAppended(block, payload, BLOCK_HEAD, DATA_OFFSET + start);
    BlockGrowsWhole(data, Frame(payload), start, B);
    LastBlock(grown, start, B, ScanBlock(block + Frame(payload), DATA_OFFSET + start));
  }

  lemma AppendPadded(data: seq<byte>, start: nat, B: nat, time: nat, payload: seq<byte>)
    requires 0 < B < TWO32 && start < |data| < start + B < |data| + 6 + |payload| && Laid(data, start, B)
    requires 14 + |payload| <= B
    ensures var grown := data + (Zeros(start + B - |data|) + FreshBlock(time, payload));
            && Laid(grown, start, B)
            && Blocks(grown, start, B)
               == Blocks(data, start, B) + [Record(DATA_OFFSET + start + B + BLOCK_HEAD, payload)]
  {
    hide FreshBlock, Look, Scan, End, Laid, Blocks, Tidy, Zeros;
    var block, gap, next := data[start..], Zeros(start + B - |data|), FreshBlock(time, payload);
    var grown := data + (gap + next);
    FreshBlockHolds(time, payload, DATA_OFFSET + start + B);
    PaddedBlocks(data, gap, next, start, B);
    LastIsRecords(data, start, B);
    PaddedTidy(block, |gap|, next, DATA_OFFSET + start);
    LastBlock(grown, start + B, B, [Record(DATA_OFFSET + start + B + BLOCK_HEAD, payload)]);
    LaidCons(grown, start, B);
  }

  lemma PaddedBlocks(data: seq<byte>, gap: seq<byte>, next: seq<byte>, start: nat, B: nat)
    requires 0 < B && start < |data| && |data| + |gap| == start + B && |next| <= B
    ensures var grown := data + (gap + next);
            Block(grown, start, B) == data[start..] + gap && Block(grown, start + B, B) == next
  {
    assert data + (gap + next) == (data + gap) + next;
    BlockGrowsWhole(data, gap, start, B);
    BlockKept(data + gap, next, start, B);
    BlockGrowsWhole(data + gap, next, start + B, B);
    assert (data + gap)[start + B..] + next == next;
  }

  lemma LastIsRecords(data: seq<byte>, start: nat, B: nat)
    requires 0 < B && start < |data| <= start + B && Laid(data, start, B)
    ensures var block := data[start..];
            && block == Block(data, start, B) && BLOCK_HEAD <= |block| && block[0] == BLOCK_MAGIC
            && End(block, BLOCK_HEAD) == |block| && Blocks(data, start, B) == ScanBlock(block, DATA_OFFSET + start)
  {
    BlockGrowsWhole(data, [], start, B);
    assert data + [] == data && data[start..] + [] == data[start..];
    LaidTail(data, start, B);
    assert Blocks(data, start + B, B) == [];
  }

  lemma PaddedTidy(block: seq<byte>, n: nat, next: seq<byte>, base: nat)
    requires BLOCK_HEAD <= |block| && block[0] == BLOCK_MAGIC && End(block, BLOCK_HEAD) == |block|
    requires BLOCK_HEAD < |next| && Look(next, BLOCK_HEAD).Found? && n < 6 + Look(next, BLOCK_HEAD).len
    ensures Tidy(block + Zeros(n), next)
    ensures ScanBlock(block + Zeros(n), base) == ScanBlock(block, base)
  {
    hide Look, Scan;
    ScanPadded(block, n, BLOCK_HEAD, base);
    assert (block + Zeros(n))[|block|..] == Zeros(n);
  }

  lemma LaidCons(data: seq<byte>, start: nat, B: nat)
    requires 0 < B && start < |data|
    requires Tidy(Block(data, start, B), Block(data, start + B, B)) && Laid(data, start + B, B)
    ensures Laid(data, start, B)
    ensures Blocks(data, start, B) == ScanBlock(Block(data, start, B), DATA_OFFSET + start) + Blocks(data, start + B, B)
  {
    LaidTail(data, start, B);
  }

  /** A block that reaches the end of the file. */
  lemma LastBlock(data: seq<byte>, start: nat, B: nat, items: seq<Item>)
    requires 0 < B && start < |data| <= start + B
    requires var block := Block(data, start, B);
             && BLOCK_HEAD <= |block| && block[0] == BLOCK_MAGIC && End(block, BLOCK_HEAD) == |block|
             && ScanBlock(block, DATA_OFFSET + start) == items
    ensures Laid(data, start, B) && Blocks(data, start, B) == items
  {
    hide Look, Scan, End;
    assert Block(data, start + B, B) == [] && Blocks(data, start + B, B) == [];
    assert items + [] == items;
  }

  /** Every accepted write keeps the layout and adds its record behind all others, at the offset it returns. */
  lemma {:induction false} AppendLaid(data: seq<byte>, start: nat, B: nat, time: nat, payload: seq<byte>)
    requires 0 < B < TWO32 && Boundary(start, B) && start <= |data| && Laid(data, start, B)
    requires 14 + |payload| <= B
    ensures Laid(Append(data, B, time, payload), start, B)
    ensures Blocks(Append(data, B, time, payload), start, B)
         == Blocks(data, start, B) + [Record(AppendOffset(data, B, payload), payload)]
    decreases |data| - start
  {
    hide Laid, Look, Scan, Append;
    if start == |data| {
      AppendAtBoundary(data, B, time, payload);
    } else if |data| < start + B {
      AppendToLast(data, start, B, time, payload);
    } else {
      NextBoundary(start, B);
      LaidTail(data, start, B);
      AppendLaid(data, start + B, B, time, payload);
      BeforeAppend(data, start, B, time, payload);
    }
  }

  lemma LaidTail(data: seq<byte>, start: nat, B: nat)
    requires 0 < B && Laid(data, start, B) && start < |data|
    ensures Laid(data, start + B, B) && Tidy(Block(data, start, B), Block(data, start + B, B))
    ensures BLOCK_HEAD <= |Block(data, start, B)| && Block(data, start, B)[0] == BLOCK_MAGIC
    ensures !Stuck(ScanBlock(Block(data, start, B), DATA_OFFSET + start))
    ensures Blocks(data, start, B) == ScanBlock(Block(data, start, B), DATA_OFFSET + start) + Blocks(data, start + B, B)
  {
    TidyNotStuck(Block(data, start, B), Block(data, start + B, B), DATA_OFFSET + start);
  }

  lemma AppendAtBoundary(data: seq<byte>, B: nat, time: nat, payload: seq<byte>)
    requires 0 < B < TWO32 && Boundary(|data|, B) && 14 + |payload| <= B
    ensures Laid(Append(data, B, time, payload), |data|, B)
    ensures Blocks(Append(data, B, time, payload), |data|, B)
         == Blocks(data, |data|, B) + [Record(AppendOffset(data, B, payload), payload)]
  {
    hide Look, Scan, End;
    FreshBlockHolds(time, payload, DATA_OFFSET + |data|);
    BlockGrowsWhole(data, FreshBlock(time, payload), |data|, B);
    assert data[|data|..] + FreshBlock(time, payload) == FreshBlock(time, payload);
    LastBlock(data + FreshBlock(time, payload), |data|, B, [Record(DATA_OFFSET + |data| + BLOCK_HEAD, payload)]);
  }

  /** A full block keeps its records when the file grows behind it. */
  lemma BeforeAppend(data: seq<byte>, start: nat, B: nat, time: nat, payload: seq<byte>)
    requires 0 < B < TWO32 && Boundary(start, B) && start + B <= |data| && 14 + |payload| <= B
    requires Laid(data, start, B) && Laid(Append(data, B, time, payload), start + B, B)
    ensures var grown := Append(data, B, time, payload);
            && Laid(grown, start, B)
            && Blocks(grown, start, B)
               == ScanBlock(Block(data, start, B), DATA_OFFSET + start) + Blocks(grown, start + B, B)
  {
    hide Laid, Look, Blocks, ScanBlock, Tidy, Added;
    var grown := Append(data, B, time, payload);
    BlockKept(data, Added(data, B, time, payload), start, B);
    LaidTail(data, start, B);
    if start + B < |data| {
      TidyBeforeNext(data, Added(data, B, time, payload), start, B);
    } else {
      TidyBeforeFresh(data, start, B, time, payload);
    }
    LaidCons(grown, start, B);
  }

  lemma TidyBeforeNext(data: seq<byte>, more: seq<byte>, start: nat, B: nat)
    requires 0 < B && start + B < |data| && Tidy(Block(data, start, B), Block(data, start + B, B))
    ensures Tidy(Block(data, start, B), Block(data + more, start + B, B))
  {
    hide Tidy;
    NextBlockGrows(data, more, start + B, B);
    var before, after := Block(data, start + B, B), Block(data + more, start + B, B);
    assert after == before + after[|before|..];
    TidyGrows(Block(data, start, B), before, after[|before|..]);
  }

  lemma TidyBeforeFresh(data: seq<byte>, start: nat, B: nat, time: nat, payload: seq<byte>)
    requires 0 < B < TWO32 && Boundary(start, B) && start + B == |data| && 14 + |payload| <= B && Laid(data, start, B)
    ensures Tidy(Block(data, start, B), Block(Append(data, B, time, payload), start + B, B))
  {
    hide Laid, Look, Blocks, Scan, End, Tidy, FreshBlock;
    NextBoundary(start, B);
    BoundaryMod(|data|, |data|, B);
    FreshBlockHolds(time, payload, 0);
    var more := FreshBlock(time, payload);
    BlockGrowsWhole(data, more, |data|, B);
    assert data[|data|..] + more == more;
    LastIsRecords(data, start, B);
    PaddedTidy(Block(data, start, B), 0, more, 0);
    assert Block(data, start, B) + Zeros(0) == Block(data, start, B);
  }

  lemma NextBlockGrows(data: seq<byte>, more: seq<byte>, start: nat, B: nat)
    requires 0 < B && start < |data|
    ensures Block(data, start, B) <= Block(data + more, start, B)
  {
  }
}

/** Whole conversations with a log: the loops a client writes around Write and Next. */
module BinlogRuns {
  import opened Bytes
  import opened Codec
  import opened BinlogFormat
  import opened BinlogLayout
  import opened BinlogTheorems
  import opened BinlogTail
  import opened BinlogFile

  /** What the i-th write of a list returns. */
  function OffsetOf(B: nat, writes: seq<Entry>, i: nat): int
    requires 0 < B && i < |writes|
  {
    if Accepted(B, writes[i].payload) then AppendOffset(Written(B, writes[..i]), B, writes[i].payload) else -1
  }

  /** Writes a list of entries to a freshly created log. */
  method WriteAll(log: Binlog, B: nat, created: nat, writes: seq<Entry>) returns (offsets: seq<int>)
    requires 0 < B < TWO32 && created < TWO32
    requires forall i :: 0 <= i < |writes| ==> writes[i].time < TWO32
    modifies log
    ensures log.Valid() && log.m_stHead.dwBlockSize == B && log.Data() == Written(B, writes)
    ensures |offsets| == |writes| && forall i :: 0 <= i < |writes| ==> offsets[i] == OffsetOf(B, writes, i)
  {
    hide Append, AppendOffset, Accepted;
    log.CreateLog(B, created);
    offsets := [];
    for i := 0 to |writes|
      invariant log.Valid() && log.m_stHead.dwBlockSize == B && log.Data() == Written(B, writes[..i])
      invariant |offsets| == i && forall j :: 0 <= j < i ==> offsets[j] == OffsetOf(B, writes, j)
    {
      assert writes[..i + 1][..i] == writes[..i];
      var offset := log.Write(writes[i].payload, writes[i].time);
      offsets := offsets + [offset];
    }
    assert writes[..|writes|] == writes;
  }

  /** The head of a created log can be read back from its file. */
  method HeadRun(log: Binlog, B: nat, created: nat) returns (h: BinlogHead)
    requires 0 < B < TWO32 && created < TWO32
    modifies log
    ensures h == BinlogHead([0x23, 0x42, 0x49, 0x4E, 0x4C, 0x4F, 0x47, 0x23], 0x0101, 4096, B, created)
    ensures log.Valid() && h == log.m_stHead
  {
    hide HeadIs, EncodeHead;
    log.CreateLog(B, created);
    h := log.ReadFileHead();
    HeadRoundTrip(log.m_stHead);
    HeadIsOnce(h, log.m_stHead, log.m_File[..20]);
  }

  /** Nothing in front of the reader but records. */
  predicate OnlyRecords(items: seq<Item>) {
    forall i :: 0 <= i < |items| ==> items[i].Record?
  }

  /** What Next returns on delivering these records. */
  function Size(got: seq<Item>): nat {
    if got != [] && got[0].Record? then 6 + |got[0].payload| else 0
  }

  /** One turn of a reading client: the record delivered by Next, if any. */
  method Read(log: Binlog, it: BinlogIterator) returns (r: Outcome, got: seq<Item>)
    requires log.Reading(it) && it.dwBlockSize <= SSIZE_MAX && OnlyRecords(log.Pending(it))
    modifies it, it.cBlockBuffer
    ensures got + log.Pending(it) == old(log.Pending(it)) && |got| <= 1
    ensures got == [] <==> old(log.Pending(it)) == []
    ensures r == Returned(Size(got)) && (r == Returned(0) ==> log.Pending(it) == [])
    ensures got != [] ==> log.Reading(it)
    ensures OnlyRecords(log.Pending(it))
    ensures it.Cached(log.Data(), log.m_stHead.dwBlockSize)
    ensures old(log.Following(it)) ==> log.Following(it)
    ensures got == [] && old(log.Following(it)) ==> (log.IsParked(it) <==> old(log.WillPark(it)))
    ensures got != [] ==> !log.IsParked(it) && !old(log.IsParked(it))
    ensures log.m_stHead.dwBlockSize * it.dwBlockIndex <= log.m_stHead.dwBlockSize * old(it.dwBlockIndex)
            + log.m_stHead.dwBlockSize
            || log.m_stHead.dwBlockSize * it.dwBlockIndex <= |log.Data()| + log.m_stHead.dwBlockSize
  {
    hide ToRead, Laid, OnTrack, CacheOf, Parks, Parked;
    ghost var items := log.Pending(it);
    r := log.Next(it);
    got := [];
    if items != [] {
      assert items == [items[0]] + items[1..];
    }
    if r != Returned(0) {
      got := [Record(it.dwLogOffset, it.cBlockBuffer[it.cLogBuffer..it.cLogBuffer + it.dwLogSize])];
    }
  }

  /** Reads until Next returns no record: everything in front of the reader is delivered, in order, with its
      offset, and then the end of the file. */
  method ReadAll(log: Binlog, it: BinlogIterator) returns (delivered: seq<Item>, r: Outcome)
    requires log.Reading(it) && it.dwBlockSize <= SSIZE_MAX && OnlyRecords(log.Pending(it))
    modifies it, it.cBlockBuffer
    ensures delivered == old(log.Pending(it)) && r == Returned(0) && log.Pending(it) == []
  {
    hide ToRead, Laid, OnTrack, CacheOf, Block;
    var got;
    r, delivered := Read(log, it);
    while r != Returned(0)
      invariant r != Returned(0) ==> log.Reading(it) && OnlyRecords(log.Pending(it))
      invariant delivered + log.Pending(it) == old(log.Pending(it))
      invariant r == Returned(0) ==> log.Pending(it) == []
      decreases |log.Pending(it)|, if r == Returned(0) then 0 else 1
    {
      ghost var before := log.Pending(it);
      r, got := Read(log, it);
      ghost var after := log.Pending(it);
      assert before == got + after;
      assert (delivered + got) + after == delivered + before;
      delivered := delivered + got;
    }
  }

  /** Writing payloads to a created log and reading it back from the start gives exactly the accepted payloads,
      in order, at the offsets the writes returned, and then 0. */
  method RoundTripRun(log: Binlog, B: nat, created: nat, writes: seq<Entry>) returns (delivered: seq<Item>, r: Outcome)
    requires 0 < B < TWO32 && created < TWO32 && AllFit(B, writes)
    requires forall i :: 0 <= i < |writes| ==> writes[i].time < TWO32
    requires DATA_OFFSET + |Written(B, writes)| + B < TWO32
    modifies log
    ensures delivered == Records(B, writes) && r == Returned(0)
    ensures log.Valid() && log.m_stHead.dwBlockSize == B && log.Data() == Written(B, writes)
  {
    hide Written, Records, Laid, Blocks, OnTrack, CacheOf, Block, AllFit;
    var _ := WriteAll(log, B, created, writes);
    WrittenIsLaid(B, writes);
    AreRecords(B, writes);
    var it := log.GetIterator();
    delivered, r := ReadAll(log, it);
  }

  lemma {:induction false} AreRecords(B: nat, writes: seq<Entry>)
    requires 0 < B
    ensures OnlyRecords(Records(B, writes))
  {
    if writes != [] {
      AreRecords(B, writes[..|writes| - 1]);
    }
  }

  /** The record of the i-th write stands behind those of the earlier ones, at the offset that write returned. */
  lemma {:induction false} RecordOfWrite(B: nat, writes: seq<Entry>, i: nat)
    requires 0 < B && i < |writes| && Accepted(B, writes[i].payload)
    ensures var before := |Records(B, writes[..i])|;
            && before < |Records(B, writes)| && Records(B, writes)[..before] == Records(B, writes[..i])
            && Records(B, writes)[before] == Record(OffsetOf(B, writes, i), writes[i].payload)
    decreases |writes|
  {
    hide Accepted, Written, AppendOffset;
    var n := |writes| - 1;
    if i < n {
      RecordOfWrite(B, writes[..n], i);
      assert writes[..n][..i] == writes[..i];
      ghost var before := Records(B, writes[..i]);
      assert Records(B, writes) == Records(B, writes[..n]) + Records(B, writes)[|Records(B, writes[..n])|..];
    }
  }

  /** Reading from the offset that the i-th write returned gives the record of that write, all later ones, and
      then 0. */
  method ReadBack(log: Binlog, B: nat, created: nat, writes: seq<Entry>, i: nat)
    returns (offsets: seq<int>, delivered: seq<Item>, r: Outcome)
    requires 0 < B < TWO32 && created < TWO32 && AllFit(B, writes)
    requires i < |writes| && Accepted(B, writes[i].payload)
    requires forall i :: 0 <= i < |writes| ==> writes[i].time < TWO32
    requires DATA_OFFSET + |Written(B, writes)| + B < TWO32
    modifies log
    ensures Records(B, writes) == Records(B, writes[..i]) + delivered && r == Returned(0)
    ensures log.Valid() && log.m_stHead.dwBlockSize == B && log.Data() == Written(B, writes)
    ensures |offsets| == |writes| && 0 <= offsets[i]
    ensures delivered != [] && delivered[0] == Record(offsets[i], writes[i].payload)
  {
    hide Written, Records, Laid, Blocks, ReadsFrom, Remaining, OnTrack, CacheOf, Block, AllFit, OffsetOf, Accepted;
    offsets := WriteAll(log, B, created, writes);
    WrittenIsLaid(B, writes);
    AreRecords(B, writes);
    RecordOfWrite(B, writes, i);
    assert Blocks(log.Data(), 0, B)[|Records(B, writes[..i])|].offset == offsets[i];
    RecordInFile(log.Data(), B, |Records(B, writes[..i])|);
    var it := log.GetIteratorAt(offsets[i]);
    assert OnlyRecords(log.Pending(it));
    delivered, r := ReadAll(log, it);
  }

  lemma RecordInFile(data: seq<byte>, B: nat, i: nat)
    requires 0 < B && i < |Blocks(data, 0, B)| && Blocks(data, 0, B)[i].Record?
    ensures DATA_OFFSET <= Blocks(data, 0, B)[i].offset < DATA_OFFSET + |data|
  {
    hide Blocks;
    EmptyLog(B);
    var s := DeliveredAreFrames(data, 0, B, i);
  }

  // ----- a damaged file

  lemma {:induction false} ScanRecords(block: seq<byte>, off: nat, base: nat)
    requires !Stuck(Scan(block, off, base))
    ensures OnlyRecords(Scan(block, off, base))
    decreases |block| - off
  {
    hide Look;
    if off < |block| && Look(block, off).Found? {
      var rest := Scan(block, off + 6 + Look(block, off).len, base);
      assert rest != [] ==> Scan(block, off, base)[|rest|] == rest[|rest| - 1];
      ScanRecords(block, off + 6 + Look(block, off).len, base);
    }
  }

  lemma {:induction false} LaidRecords(data: seq<byte>, start: nat, B: nat)
    requires 0 < B && Laid(data, start, B)
    ensures OnlyRecords(Blocks(data, start, B))
    decreases |data| - start
  {
    hide Scan, Laid, Block, Stuck, Blocks;
    if start < |data| {
      LaidTail(data, start, B);
      ScanRecords(Block(data, start, B), BLOCK_HEAD, DATA_OFFSET + start);
      LaidRecords(data, start + B, B);
    } else {
      NothingThere(data, start, B);
    }
  }

  lemma NothingThere(data: seq<byte>, start: nat, B: nat)
    requires 0 < B && |data| <= start
    ensures Blocks(data, start, B) == []
  {
  }

  lemma DamagedRecords(data: seq<byte>, damaged: seq<byte>, bad: nat, B: nat)
    requires 0 < B && Boundary(bad, B) && bad < |data| && Laid(data, 0, B) && DifferOnlyIn(data, damaged, bad, B)
    requires !HoldsWrap(Block(damaged, bad, B))
    ensures Blocks(damaged, 0, B) == Between(data, 0, bad, B) + BlockItems(damaged, bad, B) + Blocks(data, bad + B, B)
    ensures OnlyRecords(Blocks(damaged, 0, B))
  {
    hide Scan, Laid, Blocks, Between, Block, HoldsWrap, Stuck, BlockItems;
    DamageIsContained(data, damaged, bad, B, Between(data, 0, bad, B), BlockItems(data, bad, B),
                      BlockItems(damaged, bad, B), Blocks(data, bad + B, B));
    LaidRecords(data, 0, B);
    StuckIsWrap(damaged, bad, B);
    ItemsRecords(damaged, bad, B);
    PartsRecords(Between(data, 0, bad, B), BlockItems(data, bad, B), Blocks(data, bad + B, B));
  }

  lemma ItemsRecords(data: seq<byte>, start: nat, B: nat)
    requires 0 < B && !Stuck(BlockItems(data, start, B))
    ensures OnlyRecords(BlockItems(data, start, B))
  {
    hide Scan, Stuck, Block;
    var block := Block(data, start, B);
    if BLOCK_HEAD <= |block| && block[0] == BLOCK_MAGIC {
      ScanRecords(block, BLOCK_HEAD, DATA_OFFSET + start);
    }
  }

  lemma PartsRecords(a: seq<Item>, b: seq<Item>, c: seq<Item>)
    requires OnlyRecords(a + b + c)
    ensures OnlyRecords(a) && OnlyRecords(c)
  {
    forall i | 0 <= i < |a|
      ensures a[i].Record?
    {
      assert (a + b + c)[i] == a[i];
    }
    forall i | 0 <= i < |c|
      ensures c[i].Record?
    {
      assert (a + b + c)[|a| + |b| + i] == c[i];
    }
  }

  /** One block of the file of a well laid-out log is overwritten by anything but a length that wraps: reading the
      log from its start still delivers every record of all other blocks, in order, then 0. */
  method DamagedRun(log: Binlog, bad: nat, damaged: seq<byte>) returns (delivered: seq<Item>, r: Outcome)
    requires log.Valid() && Laid(log.Data(), 0, log.m_stHead.dwBlockSize)
    requires |log.m_File| + log.m_stHead.dwBlockSize < TWO32 && log.m_stHead.dwBlockSize <= SSIZE_MAX
    requires bad < |log.Data()| && Boundary(bad, log.m_stHead.dwBlockSize)
    requires DifferOnlyIn(log.Data(), damaged, bad, log.m_stHead.dwBlockSize)
    requires !HoldsWrap(Block(damaged, bad, log.m_stHead.dwBlockSize))
    modifies log`m_File
    ensures log.Valid() && log.Data() == damaged && r == Returned(0)
    ensures var B, data := log.m_stHead.dwBlockSize, old(log.Data());
            delivered == Between(data, 0, bad, B) + BlockItems(damaged, bad, B) + Blocks(data, bad + B, B)
  {
    hide Laid, Blocks, BlockItems, Between, Block, HoldsWrap, OnTrack, CacheOf;
    DamagedRecords(log.Data(), damaged, bad, log.m_stHead.dwBlockSize);
    log.m_File := log.m_File[..DATA_OFFSET] + damaged;
    assert log.Data() == damaged;
    var it := log.GetIterator();
    delivered, r := ReadAll(log, it);
  }

  // ----- following a log that grows

  datatype Op = DoWrite(entry: Entry) | DoNext

  predicate Sound(B: nat, op: Op) {
    op.DoWrite? ==> op.entry.time < TWO32 && (Accepted(B, op.entry.payload) ==> Fits(B, op.entry.payload))
  }

  /** The payloads the log accepts among the operations. */
  function Sent(B: nat, ops: seq<Op>): seq<seq<byte>> {
    if ops == [] then []
    else
      var op := ops[|ops| - 1];
      Sent(B, ops[..|ops| - 1]) +
      if op.DoWrite? && Accepted(B, op.entry.payload) then [op.entry.payload] else []
  }

  function Payloads(items: seq<Item>): seq<seq<byte>> {
    if items == [] then []
    else
      var item := items[|items| - 1];
      Payloads(items[..|items| - 1]) + if item.Record? then [item.payload] else []
  }

  /** What an operation makes of the bytes behind the file head, and of the number of records in front of the
      reader. */
  function GrownBy(B: nat, data: seq<byte>, op: Op): seq<byte>
    requires 0 < B
  {
    if op.DoWrite? && Accepted(B, op.entry.payload) then Append(data, B, op.entry.time, op.entry.payload) else data
  }

  function BehindBy(B: nat, behind: nat, op: Op): nat {
    match op
    case DoNext => if behind > 0 then behind - 1 else 0
    case DoWrite(w) => if Accepted(B, w.payload) then behind + 1 else behind
  }

  function Grown(B: nat, data: seq<byte>, ops: seq<Op>): seq<byte>
    requires 0 < B
  {
    if ops == [] then data else GrownBy(B, Grown(B, data, ops[..|ops| - 1]), ops[|ops| - 1])
  }

  function Behind(B: nat, behind: nat, ops: seq<Op>): nat {
    if ops == [] then behind else BehindBy(B, Behind(B, behind, ops[..|ops| - 1]), ops[|ops| - 1])
  }

  predicate FullBlocks(B: nat, data: seq<byte>)
    requires 0 < B
  {
    0 < |data| && |data| % B == 0
  }

  /** Operation k is a Next that finds no record, on a log that is a number of full blocks. */
  predicate MeetsFullEnd(B: nat, data: seq<byte>, behind: nat, ops: seq<Op>, k: nat)
    requires 0 < B
  {
    k < |ops| && ops[k].DoNext? && Behind(B, behind, ops[..k]) == 0 && FullBlocks(B, Grown(B, data, ops[..k]))
  }

  /** One of the first `done` operations does. */
  predicate MetFullEnd(B: nat, data: seq<byte>, behind: nat, ops: seq<Op>, done: nat)
    requires 0 < B
  {
    exists k :: 0 <= k < done && MeetsFullEnd(B, data, behind, ops, k)
  }

  /** A write seen by a reader that follows the log and is not parked: the new record is the last it will
      deliver. */
  method FollowedWrite(log: Binlog, it: BinlogIterator, w: Entry) returns (added: seq<Item>)
    requires log.Valid() && log.Following(it) && it.Cached(log.Data(), log.m_stHead.dwBlockSize)
    requires !Parked(log.Data(), log.m_stHead.dwBlockSize, it.Where(log.m_stHead.dwBlockSize))
    requires Sound(log.m_stHead.dwBlockSize, DoWrite(w))
    modifies log`m_File, log`m_Position
    ensures log.Valid() && log.Following(it) && it.Cached(log.Data(), log.m_stHead.dwBlockSize)
    ensures log.Pending(it) == old(log.Pending(it)) + added
    ensures if Accepted(log.m_stHead.dwBlockSize, w.payload)
            then added == [Record(AppendOffset(old(log.Data()), log.m_stHead.dwBlockSize, w.payload), w.payload)]
            else added == []
    ensures log.Data() == GrownBy(log.m_stHead.dwBlockSize, old(log.Data()), DoWrite(w)) && !log.IsParked(it)
  {
    hide ToRead, Laid, OnTrack, CacheOf, Block, Append, AppendOffset, Accepted, Parked;
    ghost var B, data, p := log.m_stHead.dwBlockSize, log.Data(), it.Where(log.m_stHead.dwBlockSize);
    var offset := log.Write(w.payload, w.time);
    if offset == -1 {
      WriteTells(data, B, w.payload, offset);
      return [];
    }
    WriteTells(data, B, w.payload, offset);
    added := [Record(offset, w.payload)];
    EmptyLog(B);
    AppendLaid(data, 0, B, w.time, w.payload);
    WriteReachesReader(data, B, w, p);
    if p.loaded {
      CacheSurvives(data, B, w, p, it.cBlockBuffer[..it.dwRealSize]);
    }
  }

  lemma WriteTells(data: seq<byte>, B: nat, payload: seq<byte>, r: int)
    requires 0 < B
    requires r == if Accepted(B, payload) then AppendOffset(data, B, payload) else -1
    ensures Accepted(B, payload) <==> r != -1
  {
  }

  /** A reader that follows a log. */
  ghost predicate Afoot(log: Binlog, it: BinlogIterator)
    reads log, it, it.cBlockBuffer
  {
    && log.Valid() && it.Cached(log.Data(), log.m_stHead.dwBlockSize) && log.Following(it)
    && OnlyRecords(log.Pending(it)) && it.dwBlockSize <= SSIZE_MAX
  }

  /** The reader stands in the file or right at its end, unless it is parked. */
  lemma InTheFile(log: Binlog, it: BinlogIterator)
    requires Afoot(log, it) && !log.IsParked(it)
    ensures log.m_stHead.dwBlockSize * it.dwBlockIndex <= |log.Data()|
  {
    hide OnTrack, Laid;
    TrackCases(log.Data(), log.m_stHead.dwBlockSize, it.Where(log.m_stHead.dwBlockSize));
  }

  /** One operation: `got` is what it delivered, `added` what it wrote. It is refused to a parked reader if it is a
      write, or if the next block is past 2^32. */
  method Step(log: Binlog, it: BinlogIterator, op: Op) returns (refused: bool, got: seq<Item>, added: seq<Item>)
    requires Afoot(log, it) && Sound(log.m_stHead.dwBlockSize, op)
    requires |log.m_File| + log.m_stHead.dwBlockSize < TWO32
    modifies log`m_File, log`m_Position, it, it.cBlockBuffer
    ensures log.m_stHead == old(log.m_stHead) && Afoot(log, it)
    ensures old(log.Pending(it)) + added == got + log.Pending(it)
    ensures refused <==> old(log.IsParked(it) && (op.DoWrite? || !log.Addressable(it)))
    ensures refused ==> added == got == [] && log.Data() == old(log.Data())
                        && it.Where(log.m_stHead.dwBlockSize) == old(it.Where(log.m_stHead.dwBlockSize))
    ensures !refused ==>
              && |added| <= 1 && Payloads(added) == Sent(log.m_stHead.dwBlockSize, [op])
              && log.Data() == GrownBy(log.m_stHead.dwBlockSize, old(log.Data()), op)
              && |log.Pending(it)| == BehindBy(log.m_stHead.dwBlockSize, |old(log.Pending(it))|, op)
    ensures !refused && log.IsParked(it) ==>
              || old(log.IsParked(it))
              || (op.DoNext? && old(log.Pending(it)) == [] && FullBlocks(log.m_stHead.dwBlockSize, old(log.Data())))
  {
    hide ToRead, Laid, OnTrack, CacheOf, Block, Append, AppendOffset, Accepted;
    refused, got, added := false, [], [];
    ghost var before := log.Pending(it);
    assert [] + before == before + [] == before;
    var start := DATA_OFFSET + log.m_stHead.dwBlockSize * it.dwBlockIndex;
    if log.m_stHead.dwBlockSize <= it.dwOffset && |log.m_File| <= start {
      if op.DoWrite? || TWO32 <= start + log.m_stHead.dwBlockSize {
        return true, [], [];
      }
    } else {
      InTheFile(log, it);
    }
    match op
    case DoNext =>
      var r;
      r, got := Read(log, it);
    case DoWrite(w) =>
      added := FollowedWrite(log, it, w);
      RecordsJoin(before, added);
      assert [] + log.Pending(it) == log.Pending(it);
  }

  lemma RecordsJoin(a: seq<Item>, b: seq<Item>)
    requires OnlyRecords(a) && OnlyRecords(b)
    ensures OnlyRecords(a + b)
  {
  }

  /** What the reader had in front of it at the start, followed by everything written since, is what it has
      delivered, followed by what it has in front of it now. */
  predicate Balanced(start: seq<Item>, written: seq<Item>, delivered: seq<Item>, pending: seq<Item>) {
    start + written == delivered + pending
  }

  /** The records written are those of the first `done` operations. */
  predicate Reported(written: seq<Item>, B: nat, ops: seq<Op>, done: nat) {
    done <= |ops| && Payloads(written) == Sent(B, ops[..done])
  }

  /** The log and the reader are where the first `done` operations take them, and the reader is parked only if it
      was, or if one of them was a Next that met the end of a log of full blocks. */
  ghost predicate Tracked(log: Binlog, it: BinlogIterator, data: seq<byte>, behind: nat, was: bool, ops: seq<Op>,
      done: nat)
    requires log.Valid() && done <= |ops|
    reads log, it`dwBlockIndex, it`dwOffset, it`dwRealSize
  {
    && log.Data() == Grown(log.m_stHead.dwBlockSize, data, ops[..done])
    && |log.Pending(it)| == Behind(log.m_stHead.dwBlockSize, behind, ops[..done])
    && (log.IsParked(it) ==> was || MetFullEnd(log.m_stHead.dwBlockSize, data, behind, ops, done))
  }

  /** Any interleaving of writes and reads on one iterator, of any length, as long as the file stays below 2^32:
      what the reader had in front of it, followed by everything written since, is what it has delivered, followed
      by what it still has in front of it. Every record is delivered once, in write order. The run stops only at a
      parked reader, in front of a write or when its next block is past 2^32: the reader was parked at the start,
      or an earlier Next of the run found no record on a log of full blocks. */
  method Follow(log: Binlog, it: BinlogIterator, ops: seq<Op>)
    returns (delivered: seq<Item>, written: seq<Item>, done: nat)
    requires Afoot(log, it)
    requires forall i :: 0 <= i < |ops| ==> Sound(log.m_stHead.dwBlockSize, ops[i])
    requires DATA_OFFSET + |Grown(log.m_stHead.dwBlockSize, log.Data(), ops)| + log.m_stHead.dwBlockSize < TWO32
    modifies log`m_File, log`m_Position, it, it.cBlockBuffer
    ensures log.Valid() && log.m_stHead == old(log.m_stHead)
    ensures Balanced(old(log.Pending(it)), written, delivered, log.Pending(it))
    ensures done <= |ops| && Reported(written, log.m_stHead.dwBlockSize, ops, done)
    ensures log.Data() == Grown(log.m_stHead.dwBlockSize, old(log.Data()), ops[..done])
    ensures |log.Pending(it)| == Behind(log.m_stHead.dwBlockSize, |old(log.Pending(it))|, ops[..done])
    ensures done < |ops| ==>
              && log.IsParked(it) && (ops[done].DoWrite? || !log.Addressable(it))
              && (old(log.IsParked(it))
                  || MetFullEnd(log.m_stHead.dwBlockSize, old(log.Data()), |old(log.Pending(it))|, ops, done))
  {
    hide Afoot, Parked, Sound, ToRead, Balanced, Reported, Grown, Behind, GrownBy, BehindBy, MetFullEnd, FullBlocks;
    Standing(log, it);
    InBalance(log.Pending(it), log.m_stHead.dwBlockSize, ops);
    delivered, written, done := [], [], 0;
    ghost var B, data, behind, was := log.m_stHead.dwBlockSize, log.Data(), |log.Pending(it)|, log.IsParked(it);
    NothingDone(B, data, behind, ops);
    while done < |ops|
      invariant 0 <= done <= |ops| && log.m_stHead == old(log.m_stHead) && log.Valid()
      invariant Afoot(log, it)
      invariant Balanced(old(log.Pending(it)), written, delivered, log.Pending(it))
      invariant Reported(written, B, ops, done)
      invariant Tracked(log, it, data, behind, was, ops, done)
    {
      ghost var before := log.Pending(it);
      GrownSoFar(B, data, ops, done);
      var refused, got, added := Step(log, it, ops[done]);
      Standing(log, it);
      Chain(old(log.Pending(it)), written, added, delivered, before, got, log.Pending(it));
      if refused {
        Stopped(written, delivered);
        return;
      }
      OneMoreSent(written, added, B, ops, done);
      OneMoreDone(B, data, behind, ops, done);
      delivered, written, done := delivered + got, written + added, done + 1;
    }
  }

  /** The file never shrinks. */
  lemma {:induction false} GrownSoFar(B: nat, data: seq<byte>, ops: seq<Op>, k: nat)
    requires 0 < B && k <= |ops|
    ensures |Grown(B, data, ops[..k])| <= |Grown(B, data, ops)|
    decreases |ops|
  {
    hide Append, Accepted;
    if k < |ops| {
      var n := |ops| - 1;
      GrownSoFar(B, data, ops[..n], k);
      assert ops[..n][..k] == ops[..k];
      if ops[n].DoWrite? {
        AppendGrows(Grown(B, data, ops[..n]), B, ops[n].entry);
      }
    } else {
      assert ops[..k] == ops;
    }
  }

  lemma NothingDone(B: nat, data: seq<byte>, behind: nat, ops: seq<Op>)
    requires 0 < B
    ensures Grown(B, data, ops[..0]) == data && Behind(B, behind, ops[..0]) == behind
  {
  }

  lemma OneMoreDone(B: nat, data: seq<byte>, behind: nat, ops: seq<Op>, i: nat)
    requires 0 < B && i < |ops|
    ensures Grown(B, data, ops[..i + 1]) == GrownBy(B, Grown(B, data, ops[..i]), ops[i])
    ensures Behind(B, behind, ops[..i + 1]) == BehindBy(B, Behind(B, behind, ops[..i]), ops[i])
    ensures MetFullEnd(B, data, behind, ops, i) ==> MetFullEnd(B, data, behind, ops, i + 1)
    ensures MeetsFullEnd(B, data, behind, ops, i) ==> MetFullEnd(B, data, behind, ops, i + 1)
  {
    hide MeetsFullEnd;
    assert ops[..i + 1][..i] == ops[..i];
  }

  lemma Standing(log: Binlog, it: BinlogIterator)
    requires Afoot(log, it)
    ensures log.Valid()
  {
  }

  lemma InBalance(start: seq<Item>, B: nat, ops: seq<Op>)
    ensures Balanced(start, [], [], start) && Reported([], B, ops, 0)
  {
  }

  lemma Chain(start: seq<Item>, written: seq<Item>, added: seq<Item>, delivered: seq<Item>, before: seq<Item>,
              got: seq<Item>, after: seq<Item>)
    requires Balanced(start, written, delivered, before) && before + added == got + after
    ensures Balanced(start, written + added, delivered + got, after)
  {
    assert start + (written + added) == (start + written) + added == delivered + (before + added);
  }

  lemma Stopped(written: seq<Item>, delivered: seq<Item>)
    ensures written + [] == written && delivered + [] == delivered
  {
  }

  lemma OneMoreSent(written: seq<Item>, added: seq<Item>, B: nat, ops: seq<Op>, i: nat)
    requires i < |ops| && Reported(written, B, ops, i) && |added| <= 1 && Payloads(added) == Sent(B, [ops[i]])
    ensures Reported(written + added, B, ops, i + 1)
  {
    OneMore(written, added);
    assert ops[..i + 1][..i] == ops[..i];
    assert [ops[i]][..0] == [];
  }

  lemma {:induction false} OneMore(items: seq<Item>, added: seq<Item>)
    requires |added| <= 1
    ensures Payloads(items + added) == Payloads(items) + Payloads(added)
  {
    if added == [] {
      assert items + added == items;
    } else {
      assert (items + added)[..|items|] == items;
      assert added[..0] == [];
    }
  }

  /** Polling a parked reader: every Next returns 0 and takes it one block further. */
  method Poll(log: Binlog, it: BinlogIterator, polls: nat)
    requires Afoot(log, it) && log.IsParked(it) && |log.m_File| + log.m_stHead.dwBlockSize < TWO32
    requires DATA_OFFSET + log.m_stHead.dwBlockSize * (it.dwBlockIndex + polls) < TWO32
    modifies it, it.cBlockBuffer
    ensures Afoot(log, it) && log.IsParked(it) && it.dwBlockIndex == old(it.dwBlockIndex) + polls
  {
    hide ToRead, Laid, OnTrack, CacheOf, Block;
    ghost var B := log.m_stHead.dwBlockSize;
    for i := 0 to polls
      invariant Afoot(log, it) && log.IsParked(it) && it.dwBlockIndex == old(it.dwBlockIndex) + i
    {
      ghost var index := it.dwBlockIndex;
      MulMono(index + 1, old(it.dwBlockIndex) + polls, B);
      assert B * (index + 1) == B * index + B;
      NothingForParked(log, it);
      var r := log.Next(it);
      SameIndex(B, it.dwBlockIndex, index + 1);
    }
  }

  lemma NothingForParked(log: Binlog, it: BinlogIterator)
    requires Afoot(log, it) && log.IsParked(it)
    ensures log.Pending(it) == []
  {
    hide OnTrack, Laid;
    TrackBoundary(log.Data(), log.m_stHead.dwBlockSize, it.Where(log.m_stHead.dwBlockSize));
    BehindBlock(log.Data(), log.m_stHead.dwBlockSize, it.Where(log.m_stHead.dwBlockSize));
  }

  lemma SameIndex(B: nat, i: nat, j: nat)
    requires 0 < B && B * i == B * j
    ensures i == j
  {
    if i < j {
      MulMono(i + 1, j, B);
      assert false;
    } else if j < i {
      MulMono(j + 1, i, B);
      assert false;
    }
  }

  // ----- a record that is lost

  /** The bytes a first record leaves when it fills its block exactly, and what a reader finds in them. */
  lemma OneFullBlock(B: nat, first: Entry)
    requires 0 < B < TWO32 && |first.payload| + 14 == B
    ensures var data := Written(B, [first]);
            && |data| == B && FullBlocks(B, data) && Laid(data, 0, B)
            && Blocks(data, 0, B) == [Record(DATA_OFFSET + BLOCK_HEAD, first.payload)]
  {
    hide Laid, Blocks, Frame, BlockHead;
    assert [first][..0] == [];
    WrittenIsLaid(B, [first]);
    assert Records(B, [first][..0]) == [];
  }

  /** A record fills a block, it is read, and the next Next finds the end of the file and parks the reader. */
  method ParkingRun(log: Binlog, B: nat, created: nat, first: Entry)
    returns (it: BinlogIterator, one: Outcome, two: Outcome)
    requires 14 <= B && DATA_OFFSET + |Written(B, [first])| + B < TWO32 && |first.payload| + 14 == B
    requires created < TWO32 && first.time < TWO32
    modifies log
    ensures one == Returned(6 + |first.payload|) && two == Returned(0)
    ensures log.Valid() && log.m_stHead.dwBlockSize == B == it.dwBlockSize && log.Data() == Written(B, [first])
    ensures fresh(it) && fresh(it.cBlockBuffer) && log.Following(it) && log.IsParked(it)
    ensures it.Cached(log.Data(), B) && B * it.dwBlockIndex == B
  {
    hide Written, Blocks, Laid, OnTrack, CacheOf, Block, Parked;
    var _ := WriteAll(log, B, created, [first]);
    OneFullBlock(B, first);
    it := log.GetIterator();
    one := log.Next(it);
    two := log.Next(it);
    ParkedAtEnd(log.Data(), B, it.Where(B));
  }

  lemma ParkedAtEnd(data: seq<byte>, B: nat, p: Position)
    requires 0 < B && Parked(data, B, p) && p.start <= |data|
    ensures p.start == |data|
  {
  }

  /** A second record is then written, and Next does not find it. */
  method LosingRun(log: Binlog, B: nat, created: nat, first: Entry, lost: Entry)
    returns (one: Outcome, two: Outcome, offset: int, three: Outcome)
    requires 14 <= B && |first.payload| + 14 == B && Fits(B, lost.payload)
    requires DATA_OFFSET + |Written(B, [first, lost])| + B < TWO32
    requires created < TWO32 && first.time < TWO32 && lost.time < TWO32
    modifies log
    ensures one == Returned(6 + |first.payload|) && two == Returned(0)
    ensures offset == DATA_OFFSET + B + BLOCK_HEAD && three == Returned(0)
    ensures log.Valid() && log.m_stHead.dwBlockSize == B && log.Data() == Written(B, [first, lost])
    ensures Record(offset, lost.payload) in Blocks(log.Data(), 0, B)
  {
    hide Written, Blocks, Laid, OnTrack, CacheOf, Block, Parked, Append, AppendOffset;
    OneFullBlock(B, first);
    SecondWritten(B, first, lost);
    var it;
    it, one, two := ParkingRun(log, B, created, first);
    ghost var data, p := log.Data(), it.Where(B);
    offset := log.Write(lost.payload, lost.time);
    SecondBlock(data, B, lost.payload);
    EmptyLog(B);
    AppendLaid(data, 0, B, lost.time, lost.payload);
    LastIn(Blocks(data, 0, B), Record(offset, lost.payload));
    WriteReachesReader(data, B, lost, p);
    if p.loaded {
      CacheSurvives(data, B, lost, p, it.cBlockBuffer[..it.dwRealSize]);
    }
    three := log.Next(it);
  }

  lemma LastIn(items: seq<Item>, item: Item)
    ensures item in items + [item]
  {
    assert (items + [item])[|items|] == item;
  }

  lemma SecondWritten(B: nat, first: Entry, lost: Entry)
    requires 14 <= B < TWO32 && |first.payload| + 14 == B && Fits(B, lost.payload)
    ensures Written(B, [first, lost]) == Append(Written(B, [first]), B, lost.time, lost.payload)
    ensures |Written(B, [first, lost])| >= |Written(B, [first])| + BLOCK_HEAD
  {
    hide Append;
    assert [first, lost][..1] == [first];
    OneFullBlock(B, first);
    SecondBlock(Written(B, [first]), B, lost.payload);
    OffsetsAdvance(Written(B, [first]), B, lost.time, lost.payload, lost.payload);
  }

  lemma SecondBlock(data: seq<byte>, B: nat, payload: seq<byte>)
    requires 14 <= B < TWO32 && |data| == B && Fits(B, payload)
    ensures Accepted(B, payload) && AppendOffset(data, B, payload) == DATA_OFFSET + B + BLOCK_HEAD
  {
  }
}

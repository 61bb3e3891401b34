/** The format of the block log, seen from its bytes: what a reader that starts at a block boundary delivers,
    and what it delivers from the middle. `data` is the file behind its 4096-byte head, `B` the block size. */
module BinlogFormat {
  import opened Bytes

  const DATA_OFFSET := 4096
  const BLOCK_HEAD := 8
  const SMAGIC: byte := 0x03
  const EMAGIC: byte := 0x0a
  const BLOCK_MAGIC: byte := 0xEF

  /** One record on disk. */
  function Frame(payload: seq<byte>): (s: seq<byte>)
    ensures |s| == 6 + |payload|
  {
    [SMAGIC] + BigEndian(4, |payload|) + payload + [EMAGIC]
  }

  /** The head of a block created at `time`, padded to 8 bytes. */
  function BlockHead(time: nat): (s: seq<byte>)
    ensures |s| == BLOCK_HEAD && s[0] == BLOCK_MAGIC
  {
    [BLOCK_MAGIC] + BigEndian(4, time) + [0, 0, 0]
  }

  /** The time can be read back from behind the magic byte, and zeros follow. */
  lemma BlockHeadHolds(time: nat)
    requires time < TWO32
    ensures BlockHead(time)[0] == 0xEF && FromBigEndian(BlockHead(time)[1..5]) == time
    ensures BlockHead(time)[5..] == [0, 0, 0]
  {
    assert BlockHead(time)[1..5] == BigEndian(4, time);
    LengthSurvives(time);
  }

  function Zeros(n: nat): (s: seq<byte>)
    ensures |s| == n && forall i :: 0 <= i < n ==> s[i] == 0
  {
    seq(n, _ => 0)
  }

  /** What a reader makes of the bytes at `off`: a record of some length, nothing (it gives the block up), or a
      length so large that 6 + length wraps 32 bits, on which the decoder throws. */
  datatype Probe = Found(len: nat) | Nothing | Wraps

  function Look(block: seq<byte>, off: nat): (p: Probe)
    requires off < |block|
    ensures p.Found? ==> off + 6 + p.len <= |block|
  {
    if block[off] != SMAGIC || |block| - off < 6 then Nothing
    else
      var len := FromBigEndian(block[off + 1..off + 5]);
      if 6 + len >= TWO32 then Wraps
      else if |block| - off < 6 + len || block[off + 5 + len] != EMAGIC then Nothing
      else Found(len)
  }

  /** A step of the reader: a record with its file offset, an exception it can never get past, or the error
      return on a block too short for its head. */
  datatype Item = Record(offset: nat, payload: seq<byte>) | Overflow(offset: nat) | Short

  predicate Stuck(items: seq<Item>) {
    items != [] && items[|items| - 1].Overflow?
  }

  /** First `items`, then, unless the reader is stuck in them, `rest`. */
  function Then(items: seq<Item>, rest: seq<Item>): seq<Item> {
    if Stuck(items) then items else items + rest
  }

  /** The records of a block from `off` on; `base` is the file offset of the block. */
  function Scan(block: seq<byte>, off: nat, base: nat): seq<Item>
    decreases |block| - off
  {
    if off >= |block| then []
    else
      match Look(block, off)
      case Nothing => []
      case Wraps => [Overflow(base + off)]
      case Found(len) => [Record(base + off, block[off + 5..off + 5 + len])] + Scan(block, off + 6 + len, base)
  }

  /** The block that starts at `start`, or as much of it as there is. */
  function Block(data: seq<byte>, start: nat, B: nat): seq<byte> {
    if start >= |data| then [] else if start + B <= |data| then data[start..start + B] else data[start..]
  }

  /** The records of a whole block. */
  function ScanBlock(block: seq<byte>, base: nat): seq<Item>
    requires BLOCK_HEAD <= |block|
  {
    if block[0] == BLOCK_MAGIC then Scan(block, BLOCK_HEAD, base) else []
  }

  /** Everything a reader delivers from the block boundary `start` to the end. */
  function Blocks(data: seq<byte>, start: nat, B: nat): seq<Item>
    requires 0 < B
    decreases |data| - start
  {
    if start >= |data| then []
    else
      var block := Block(data, start, B);
      if |block| < BLOCK_HEAD then [Short]
      else Then(ScanBlock(block, DATA_OFFSET + start), Blocks(data, start + B, B))
  }

  /** Everything a reader delivers that stands in the block at `start`, at offset `off` of it, having or not
      having read the block head. */
  function Remaining(data: seq<byte>, B: nat, start: nat, off: nat, loaded: bool): seq<Item>
    requires 0 < B
  {
    var block := Block(data, start, B);
    if off >= B then Blocks(data, start + B, B)
    else if loaded then Then(Scan(block, off, DATA_OFFSET + start), Blocks(data, start + B, B))
    else if block == [] then []
    else if |block| < BLOCK_HEAD then [Short]
    else if block[0] != BLOCK_MAGIC then Blocks(data, start + B, B)
    else Then(Scan(block, if off < BLOCK_HEAD then BLOCK_HEAD else off, DATA_OFFSET + start),
        Blocks(data, start + B, B))
  }

  /** Look, step by step, once the start byte and the length are there. */
  lemma LookSteps(block: seq<byte>, off: nat, len: nat)
    requires off < |block|
    requires block[off] == SMAGIC && 6 <= |block| - off ==> len == FromBigEndian(block[off + 1..off + 5])
    ensures block[off] != SMAGIC || |block| - off < 6 ==> Look(block, off) == Nothing
    ensures block[off] == SMAGIC && 6 <= |block| - off ==>
              Look(block, off) == if 6 + len >= TWO32 then Wraps
                                  else if |block| - off < 6 + len || block[off + 5 + len] != EMAGIC then Nothing
                                  else Found(len)
  {
  }

  // ----- frames

  /** Look finds a record exactly where the bytes of a frame are. */
  lemma LookIsFrame(block: seq<byte>, off: nat, len: nat)
    requires off + 6 + len <= |block| && 6 + len < TWO32
    ensures Look(block, off) == Found(len)
       <==> block[off..off + 6 + len] == Frame(block[off + 5..off + 5 + len])
  {
    hide BigEndian, FromBigEndian;
    var f := block[off..off + 6 + len];
    Rebuild(f, len);
    FrameParts(f[5..5 + len]);
    SubSlice(block, off, off + 6 + len, 1, 5);
    SubSlice(block, off, off + 6 + len, 5, 5 + len);
    assert f[0] == block[off] && f[5 + len] == block[off + 5 + len];
    BigEndianInverse(f[1..5]);
    LengthSurvives(len);
  }

  lemma SubSlice(s: seq<byte>, a: nat, b: nat, c: nat, d: nat)
    requires c <= d && a + d <= b <= |s|
    ensures s[a..b][c..d] == s[a + c..a + d]
  {
    var t := s[a..b];
    forall i | 0 <= i < d - c
      ensures t[c..d][i] == s[a + c..a + d][i]
    {
      assert t[c..d][i] == t[c + i] == s[a + (c + i)];
    }
  }

  lemma Rebuild(f: seq<byte>, len: nat)
    requires |f| == 6 + len
    ensures f == [f[0]] + f[1..5] + f[5..5 + len] + [f[5 + len]]
  {
  }

  lemma FrameParts(payload: seq<byte>)
    ensures var f := Frame(payload); f[0] == SMAGIC == 0x03 && f[5 + |payload|] == EMAGIC == 0x0a
    ensures Frame(payload)[1..5] == BigEndian(4, |payload|)
    ensures Frame(payload)[5..5 + |payload|] == payload
  {
    hide BigEndian;
    Slices([SMAGIC], BigEndian(4, |payload|), payload, [EMAGIC]);
  }

  lemma Slices(a: seq<byte>, b: seq<byte>, c: seq<byte>, d: seq<byte>)
    ensures (a + b + c + d)[|a|..|a| + |b|] == b
    ensures (a + b + c + d)[|a| + |b|..|a| + |b| + |c|] == c
  {
    assert a + b + c + d == a + (b + (c + d));
    assert (b + (c + d))[..|b|] == b;
    assert a + b + c + d == (a + b) + (c + d);
    assert (c + d)[..|c|] == c;
  }

  lemma LengthSurvives(len: nat)
    requires len < TWO32
    ensures FromBigEndian(BigEndian(4, len)) == len
  {
    BigEndianRoundTrip(4, len);
    FourBytes();
    ModUnique(len, TWO32, 0, len);
  }

  lemma FourBytes()
    ensures Pow256(4) == TWO32
  {
    assert Pow256(1) == 0x100 && Pow256(2) == 0x1_0000 && Pow256(3) == 0x100_0000;
  }

  /** A frame put into a block is found there. */
  lemma FrameFound(block: seq<byte>, off: nat, payload: seq<byte>)
    requires 6 + |payload| < TWO32 && off + 6 + |payload| <= |block|
    requires block[off..off + 6 + |payload|] == Frame(payload)
    ensures Look(block, off) == Found(|payload|) && block[off + 5..off + 5 + |payload|] == payload
  {
    hide Frame, Look;
    FrameParts(payload);
    var f := block[off..off + 6 + |payload|];
    SubSlice(block, off, off + 6 + |payload|, 5, 5 + |payload|);
    LookIsFrame(block, off, |payload|);
  }

  /** Where the records of a block end. */
  function End(block: seq<byte>, off: nat): (e: nat)
    requires off <= |block|
    ensures off <= e <= |block|
    decreases |block| - off
  {
    if off < |block| && Look(block, off).Found? then End(block, off + 6 + Look(block, off).len) else off
  }

  /** Looking at a block that grew: what was found stays found. */
  lemma LookGrows(block: seq<byte>, more: seq<byte>, off: nat)
    requires off < |block| && Look(block, off).Found?
    ensures Look(block + more, off) == Look(block, off)
  {
    assert (block + more)[off + 1..off + 5] == block[off + 1..off + 5];
  }

  lemma LastScan(block: seq<byte>, off: nat, payload: seq<byte>, base: nat)
    requires off < |block| && off + 6 + |payload| == |block| && Look(block, off) == Found(|payload|)
    requires block[off + 5..off + 5 + |payload|] == payload
    ensures Scan(block, off, base) == [Record(base + off, payload)] && End(block, off) == |block|
  {
    assert Scan(block, |block|, base) == [];
  }

  /** A frame appended to a block that is all records is delivered after them. */
  lemma {:induction false} ScanAppended(block: seq<byte>, payload: seq<byte>, off: nat, base: nat)
    requires off <= |block| && End(block, off) == |block| && 6 + |payload| < TWO32
    ensures Scan(block + Frame(payload), off, base) == Scan(block, off, base) + [Record(base + |block|, payload)]
    ensures End(block + Frame(payload), off) == |block| + 6 + |payload|
    ensures !Stuck(Scan(block, off, base))
    decreases |block| - off
  {
    hide Frame, Look;
    var grown := block + Frame(payload);
    if off == |block| {
      assert grown[off..off + 6 + |payload|] == Frame(payload);
      FrameFound(grown, off, payload);
      LastScan(grown, off, payload, base);
    } else {
      LookGrows(block, Frame(payload), off);
      var len := Look(block, off).len;
      ScanAppended(block, payload, off + 6 + len, base);
      assert grown[off + 5..off + 5 + len] == block[off + 5..off + 5 + len];
    }
  }

  lemma ZeroIsNothing(block: seq<byte>, off: nat)
    requires off < |block| ==> block[off] == 0
    ensures off < |block| ==> Look(block, off) == Nothing
  {
  }

  /** Zero padding adds nothing to a block that is all records. */
  lemma {:induction false} ScanPadded(block: seq<byte>, n: nat, off: nat, base: nat)
    requires off <= |block| && End(block, off) == |block|
    ensures Scan(block + Zeros(n), off, base) == Scan(block, off, base)
    ensures End(block + Zeros(n), off) == |block|
    ensures !Stuck(Scan(block, off, base))
    decreases |block| - off
  {
    hide Look;
    var padded := block + Zeros(n);
    if off == |block| {
      ZeroIsNothing(padded, off);
      assert n > 0 ==> padded[off] == 0;
    } else {
      LookGrows(block, Zeros(n), off);
      var len := Look(block, off).len;
      ScanPadded(block, n, off + 6 + len, base);
      assert padded[off + 5..off + 5 + len] == block[off + 5..off + 5 + len];
    }
  }
}

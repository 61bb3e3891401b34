/** The block log itself: the writer, the buffered reader, and the file they share. */
module BinlogFile {
  import opened Bytes
  import opened Codec
  import opened BinlogFormat
  import opened BinlogLayout
  import opened BinlogTheorems
  import opened BinlogTail

  const HEAD_MAGIC: seq<byte> := [0x23, 0x42, 0x49, 0x4E, 0x4C, 0x4F, 0x47, 0x23]   // "#BINLOG#"
  const HEAD_VERSION := 0x0101

  datatype BinlogHead = BinlogHead(cMagic: seq<byte>, wVersion: nat, wDataOffset: nat, dwBlockSize: nat,
      dwCreateTime: nat)

  datatype BinlogBlockHead = BinlogBlockHead(cMagic: nat, dwCreateTime: nat)

  /** What Next returns, or OverflowIOException. */
  datatype Outcome = Returned(n: int) | Thrown

  /** Bytes written at a position of a file; a gap behind its end reads as zeros. */
  function WriteAt(file: seq<byte>, pos: nat, bytes: seq<byte>): seq<byte> {
    if |file| <= pos then file + Zeros(pos - |file|) + bytes
    else file[..pos] + bytes + (if pos + |bytes| < |file| then file[pos + |bytes|..] else [])
  }

  /** Byte by byte: what is written, what was there, and zeros between the two. */
  lemma WriteAtMeans(file: seq<byte>, pos: nat, bytes: seq<byte>, i: nat)
    requires i < |WriteAt(file, pos, bytes)|
    ensures WriteAt(file, pos, bytes)[i]
         == if pos <= i < pos + |bytes| then bytes[i - pos] else if i < |file| then file[i] else 0
    ensures |WriteAt(file, pos, bytes)| == if pos + |bytes| < |file| then |file| else pos + |bytes|
  {
  }

  /** The head of a log file, field by field. */
  function EncodeHead(h: BinlogHead): seq<byte> {
    h.cMagic + BigEndian(2, h.wVersion) + BigEndian(2, h.wDataOffset) + BigEndian(4, h.dwBlockSize)
    + BigEndian(4, h.dwCreateTime)
  }

  /** These 20 bytes hold the fields of the head, each at its place. */
  ghost predicate HeadIs(h: BinlogHead, s: seq<byte>)
    requires |s| == 20
  {
    && h.cMagic == s[..8] && h.wVersion == FromBigEndian(s[8..10]) && h.wDataOffset == FromBigEndian(s[10..12])
    && h.dwBlockSize == FromBigEndian(s[12..16]) && h.dwCreateTime == FromBigEndian(s[16..20])
  }

  lemma HeadParts(u: seq<byte>, magic: seq<byte>)
    requires 20 <= |u| && u[..8] == magic
    ensures u[..20][..8] == magic && u[..20][8..10] == u[8..][..2] && u[..20][10..12] == u[8..][2..][..2]
    ensures u[..20][12..16] == u[8..][2..][2..][..4] && u[..20][16..20] == u[8..][2..][2..][4..][..4]
  {
  }

  /** Encoding a head and reading its fields gives it back. */
  lemma HeadRoundTrip(h: BinlogHead)
    requires |h.cMagic| == 8 && h.wVersion < 0x1_0000 && h.wDataOffset < 0x1_0000
    requires h.dwBlockSize < TWO32 && h.dwCreateTime < TWO32
    ensures |EncodeHead(h)| == 20 && HeadIs(h, EncodeHead(h))
  {
    hide BigEndian, FromBigEndian;
    var s := EncodeHead(h);
    TwoBytes();
    BigEndianRoundTrip(2, h.wVersion);
    BigEndianRoundTrip(2, h.wDataOffset);
    LengthSurvives(h.dwBlockSize);
    LengthSurvives(h.dwCreateTime);
    var v, d, b, t := BigEndian(2, h.wVersion), BigEndian(2, h.wDataOffset), BigEndian(4, h.dwBlockSize),
      BigEndian(4, h.dwCreateTime);
    FieldAt(h.cMagic, v, d + b + t);
    FieldAt(h.cMagic + v, d, b + t);
    FieldAt(h.cMagic + v + d, b, t);
    assert s == h.cMagic + v + (d + b + t) == h.cMagic + v + d + (b + t);
    assert s[16..20] == t && s[..8] == h.cMagic;
  }

  lemma FieldAt(front: seq<byte>, field: seq<byte>, rest: seq<byte>)
    ensures (front + field + rest)[|front|..|front| + |field|] == field
  {
  }

  /** Only one head is in given bytes. */
  lemma HeadIsOnce(h: BinlogHead, k: BinlogHead, s: seq<byte>)
    requires |s| == 20 && HeadIs(h, s) && HeadIs(k, s)
    ensures h == k
  {
  }

  lemma TwoBytes()
    ensures Pow256(2) == 0x1_0000
  {
    assert Pow256(1) == 0x100;
  }

  class BinlogIterator {
    var dwBlockIndex: nat
    var dwOffset: nat
    const dwBlockSize: nat
    const cBlockBuffer: array<byte>
    var dwRealSize: nat
    var stBlockHead: BinlogBlockHead
    var cLogBuffer: nat            // where in cBlockBuffer the current payload begins
    var dwLogSize: nat
    var dwLogOffset: nat

    constructor (blockSize: nat, blockIndex: nat, offset: nat)
      ensures dwBlockIndex == blockIndex && dwOffset == offset && dwRealSize == 0
      ensures dwBlockSize == blockSize == cBlockBuffer.Length && fresh(cBlockBuffer)
    {
      dwBlockIndex, dwOffset, dwBlockSize := blockIndex, offset, blockSize;
      cBlockBuffer := new byte[blockSize];
      dwRealSize, cLogBuffer, dwLogSize, dwLogOffset := 0, 0, 0, 0;
      stBlockHead := BinlogBlockHead(0, 0);
    }

    /** Where the iterator stands. */
    ghost function Where(B: nat): Position
      reads `dwBlockIndex, `dwOffset, `dwRealSize
    {
      Position(B * dwBlockIndex, dwOffset, dwRealSize > 0)
    }

    /** The block cache is a part of the block it was read from: all of it, or, when the file has grown since,
        whole records as far as the iterator can see. */
    ghost predicate Cached(data: seq<byte>, B: nat)
      reads `dwBlockIndex, `dwOffset, `dwRealSize, cBlockBuffer
    {
      var block := Block(data, B * dwBlockIndex, B);
      && cBlockBuffer.Length == dwBlockSize && B <= dwBlockSize
      && dwOffset <= B
      && (dwRealSize > 0 ==>
            dwRealSize <= cBlockBuffer.Length && CacheOf(block, cBlockBuffer[..dwRealSize], dwOffset))
    }

    ghost function Payload(): seq<byte>
      requires cLogBuffer + dwLogSize <= cBlockBuffer.Length
      reads this, cBlockBuffer
    {
      cBlockBuffer[cLogBuffer..cLogBuffer + dwLogSize]
    }
  }

  class Binlog {
    var m_Open: bool
    var m_stHead: BinlogHead
    var m_File: seq<byte>
    var m_Position: nat           // of the file descriptor, moved by write and lseek

    ghost predicate Valid()
      reads this
    {
      && m_Open
      && 0 < m_stHead.dwBlockSize < TWO32 && m_stHead.wDataOffset == DATA_OFFSET
      && DATA_OFFSET <= |m_File| == m_Position
    }

    ghost function Data(): seq<byte>
      requires Valid()
      reads this
    {
      m_File[DATA_OFFSET..]
    }

    constructor ()
      ensures !m_Open
    {
      m_Open, m_File, m_Position := false, [], 0;
      m_stHead := BinlogHead([], 0, 0, 0, 0);
    }

    // ----- the writer

    /** Starts an empty log: a 4096-byte file head and no blocks. */
    method CreateLog(dwBlockSize: nat, now: nat)
      requires 0 < dwBlockSize < TWO32 && now < TWO32
      modifies this
      ensures Valid() && Data() == []
      ensures m_stHead == BinlogHead(HEAD_MAGIC, HEAD_VERSION, DATA_OFFSET, dwBlockSize, now)
      ensures m_File[..20] == EncodeHead(m_stHead)
    {
      hide BigEndian, EncodeHead;
      m_stHead := BinlogHead(HEAD_MAGIC, HEAD_VERSION, DATA_OFFSET, dwBlockSize, now);
      var cFileHeadBuf := new byte[DATA_OFFSET](_ => 0);
      var io := new IOBuffer(cFileHeadBuf, 0, DATA_OFFSET, 0);
      PutHead(io, m_stHead);
      m_File := cFileHeadBuf[..];
      m_Position, m_Open := DATA_OFFSET, true;
      assert m_File[..20] == io.Written();
    }

    /** operator << for a file head. */
    method PutHead(io: IOBuffer, h: BinlogHead)
      requires io.Valid() && io.m_WritePosition + 20 <= io.m_BufferSize
      requires |h.cMagic| == 8 && h.wVersion < 0x1_0000 && h.wDataOffset < 0x1_0000
      requires h.dwBlockSize < TWO32 && h.dwCreateTime < TWO32
      modifies io`m_WritePosition, io.m_Buffer
      ensures io.Valid() && io.m_WritePosition == old(io.m_WritePosition) + 20
      ensures io.Written() == old(io.Written()) + EncodeHead(h)
    {
      hide BigEndian, FromBigEndian;
      FourBytes();
      TwoBytes();
      ghost var before := io.Written();
      var _ := io.Write(h.cMagic);
      var _ := io.PutUInt(2, h.wVersion);
      var _ := io.PutUInt(2, h.wDataOffset);
      var _ := io.PutUInt(4, h.dwBlockSize);
      var _ := io.PutUInt(4, h.dwCreateTime);
      Regroup(before, h.cMagic, BigEndian(2, h.wVersion), BigEndian(2, h.wDataOffset),
              BigEndian(4, h.dwBlockSize), BigEndian(4, h.dwCreateTime));
    }

    /** operator >> for a file head. */
    method GetHead(io: IOBuffer) returns (h: BinlogHead)
      requires io.Valid() && 20 <= |io.Unread()|
      modifies io`m_ReadPosition
      ensures io.Valid() && HeadIs(h, old(io.Unread())[..20])
    {
      hide FromBigEndian;
      ghost var u := io.Unread();
      var n, magic := io.Read(8);
      var version := io.GetUInt(2);
      var dataOffset := io.GetUInt(2);
      var blockSize := io.GetUInt(4);
      var time := io.GetUInt(4);
      HeadParts(u, magic);
      h := BinlogHead(magic, version.value, dataOffset.value, blockSize.value, time.value);
    }

    /** Reads the head of the file. */
    method ReadFileHead() returns (h: BinlogHead)
      requires Valid()
      ensures HeadIs(h, m_File[..20])
    {
      hide HeadIs;
      var buffer := new byte[DATA_OFFSET];
      forall i | 0 <= i < DATA_OFFSET {
        buffer[i] := m_File[i];
      }
      var io := new IOBuffer(buffer, 0, DATA_OFFSET, DATA_OFFSET);
      assert io.Unread()[..20] == m_File[..20];
      h := GetHead(io);
    }

    /** An 8-byte block head, encoded through the codec. */
    method MakeBlockHead(now: nat) returns (bytes: seq<byte>)
      requires now < TWO32
      ensures bytes == BlockHead(now)
    {
      var cBlockHeadBuf := new byte[BLOCK_HEAD](_ => 0);
      var io := new IOBuffer(cBlockHeadBuf, 0, BLOCK_HEAD, 0);
      FourBytes();
      OneByte(BLOCK_MAGIC);
      var _ := io.PutUInt(1, BLOCK_MAGIC);
      var _ := io.PutUInt(4, now);
      bytes := cBlockHeadBuf[..];
      assert bytes[..5] == io.Written() == [BLOCK_MAGIC] + BigEndian(4, now);
      assert bytes[5..] == [0, 0, 0];
    }

    method Write(buffer: seq<byte>, now: nat) returns (r: int)
      requires m_Open ==> Valid()
      requires now < TWO32
      modifies `m_File, `m_Position
      ensures !m_Open || !Accepted(m_stHead.dwBlockSize, buffer) ==>
              r == -1 && m_File == old(m_File) && m_Position == old(m_Position)
      ensures m_Open && Accepted(m_stHead.dwBlockSize, buffer) ==>
                && Valid()
                && Data() == Append(old(Data()), m_stHead.dwBlockSize, now, buffer)
                && r == AppendOffset(old(Data()), m_stHead.dwBlockSize, buffer)
    {
      hide Ntohl, BigEndian, LittleEndian, BlockHead, WriteAt, Zeros, Append, AppendOffset;
      if !m_Open {
        return -1;
      }
      var dwRealSize := (6 + |buffer|) % TWO32;
      if dwRealSize > m_stHead.dwBlockSize {
        return -1;
      }
      var dwRemainSize := m_stHead.dwBlockSize - (|m_File| - m_stHead.wDataOffset) % m_stHead.dwBlockSize;
      var offset := |m_File|;
      var iov: seq<byte> := [];
      if dwRemainSize == m_stHead.dwBlockSize {
        // a new block: its head first
        iov := MakeBlockHead(now);
        offset := offset + BLOCK_HEAD;
      } else if dwRemainSize < dwRealSize {
        // seek to the end of the block, then open the next
        m_Position := m_Position + dwRemainSize;
        iov := MakeBlockHead(now);
        offset := offset + dwRemainSize + BLOCK_HEAD;
      }
      TruncatedSize(|buffer|);
      var dwLogSize := LittleEndian(4, Ntohl(|buffer| % TWO32));
      iov := iov + ([SMAGIC] + dwLogSize + buffer + [EMAGIC]);
      WriteEffect(m_File, m_stHead.dwBlockSize, now, buffer, m_Position, iov, offset);
      m_File := WriteAt(m_File, m_Position, iov);
      m_Position := m_Position + |iov|;
      r := offset;
    }

    // ----- the reader

    /** The file offset of a place in the log, in 32 bits. */
    function FileOffset(blockIndex: nat, offset: nat): nat
      reads this
    {
      (m_stHead.wDataOffset + m_stHead.dwBlockSize * blockIndex + offset) % TWO32
    }

    /** No offset the reader computes in its block wraps 32 bits. */
    ghost predicate InRange(it: BinlogIterator)
      reads this, it`dwBlockIndex
    {
      && |m_File| + m_stHead.dwBlockSize < TWO32
      && DATA_OFFSET + m_stHead.dwBlockSize * it.dwBlockIndex < TWO32
    }

    /** Nor in the next block. */
    ghost predicate Addressable(it: BinlogIterator)
      reads this, it`dwBlockIndex
    {
      InRange(it) && DATA_OFFSET + m_stHead.dwBlockSize * it.dwBlockIndex + m_stHead.dwBlockSize < TWO32
    }

    ghost function Pending(it: BinlogIterator): seq<Item>
      requires Valid()
      reads this, it`dwBlockIndex, it`dwOffset, it`dwRealSize
    {
      ToRead(Data(), m_stHead.dwBlockSize, it.Where(m_stHead.dwBlockSize))
    }

    method GetIterator() returns (it: BinlogIterator)
      requires Valid()
      ensures fresh(it) && fresh(it.cBlockBuffer) && it.Cached(Data(), m_stHead.dwBlockSize)
      ensures it.dwBlockIndex == 0 && it.dwOffset == 0 && it.dwRealSize == 0 && it.dwBlockSize == m_stHead.dwBlockSize
      ensures Pending(it) == Blocks(Data(), 0, m_stHead.dwBlockSize)
      ensures Laid(Data(), 0, m_stHead.dwBlockSize) ==> Following(it)
    {
      hide Laid, OnTrack, Remaining, Blocks;
      it := new BinlogIterator(m_stHead.dwBlockSize, 0, 0);
      if Laid(Data(), 0, m_stHead.dwBlockSize) {
        StartOnTrack(Data(), m_stHead.dwBlockSize);
      }
      FromTheStart(Data(), m_stHead.dwBlockSize);
    }

    /** Where an iterator for a file offset starts: an offset inside the file head means the first block. */
    ghost function StartAt(offset: nat): Position
      requires Valid()
      reads this
    {
      var n := if offset < DATA_OFFSET then 0 else offset - DATA_OFFSET;
      Position(StartOf(n, m_stHead.dwBlockSize), n % m_stHead.dwBlockSize, false)
    }

    /** An iterator at a file offset. At the offset of a record of a log that is laid out well it follows the log,
        with that record and all later ones in front of it. */
    method GetIteratorAt(offset: nat) returns (it: BinlogIterator)
      requires Valid()
      ensures fresh(it) && fresh(it.cBlockBuffer) && it.Cached(Data(), m_stHead.dwBlockSize)
      ensures it.dwBlockSize == m_stHead.dwBlockSize && it.Where(m_stHead.dwBlockSize) == StartAt(offset)
      ensures it.dwBlockIndex == 0 || DATA_OFFSET + m_stHead.dwBlockSize * it.dwBlockIndex <= offset
      ensures offset < DATA_OFFSET ==> Pending(it) == Blocks(Data(), 0, m_stHead.dwBlockSize)
      ensures DATA_OFFSET <= offset ==> ReadsFrom(Data(), m_stHead.dwBlockSize, offset, Pending(it))
      ensures Laid(Data(), 0, m_stHead.dwBlockSize) ==>
                var items := Blocks(Data(), 0, m_stHead.dwBlockSize);
                forall i :: 0 <= i < |items| && items[i].Record? && items[i].offset == offset ==>
                  Following(it) && Pending(it) == items[i..]
    {
      hide ReadsFrom, Remaining, Laid, Blocks, OnTrack;
      ghost var B := m_stHead.dwBlockSize;
      if offset < m_stHead.wDataOffset {
        it := GetIterator();
        RecordsBehindHead(Data(), B);
        DivUnique(0, B, 0, 0);
        return;
      }
      var n := offset - m_stHead.wDataOffset;
      StandsAt(Data(), B, offset);
      it := new BinlogIterator(m_stHead.dwBlockSize, n / m_stHead.dwBlockSize, n % m_stHead.dwBlockSize);
      if Laid(Data(), 0, B) {
        FromRecord(Data(), B, offset, Pending(it));
      }
    }

    /** pread of a whole block into the cache. */
    method ReadBlock(it: BinlogIterator)
      requires Valid() && InRange(it)
      requires it.cBlockBuffer.Length == it.dwBlockSize >= m_stHead.dwBlockSize
      modifies it`dwRealSize, it.cBlockBuffer
      ensures var block := Block(Data(), m_stHead.dwBlockSize * it.dwBlockIndex, m_stHead.dwBlockSize);
              it.dwRealSize == |block| && it.dwRealSize <= it.cBlockBuffer.Length && it.cBlockBuffer[..|block|] == block
      ensures it.dwRealSize <= m_stHead.dwBlockSize
    {
      hide FileOffset;
      OffsetFits(it.dwBlockIndex, 0);
      var start := FileOffset(it.dwBlockIndex, 0);
      var end := start + m_stHead.dwBlockSize;
      end := if end <= |m_File| then end else |m_File|;
      if end <= start {
        it.dwRealSize := 0;
      } else {
        it.dwRealSize := end - start;
        forall i | 0 <= i < end - start {
          it.cBlockBuffer[i] := m_File[start + i];
        }
      }
    }

    ghost predicate Reading(it: BinlogIterator)
      reads this, it`dwBlockIndex, it`dwOffset, it`dwRealSize, it.cBlockBuffer
    {
      Valid() && it.Cached(Data(), m_stHead.dwBlockSize) && Addressable(it)
    }

    /** The cache holds the whole block as it is in the file now. */
    ghost predicate Fresh(it: BinlogIterator)
      requires Valid()
      reads this, it`dwBlockIndex, it`dwRealSize, it.cBlockBuffer
    {
      var block := Block(Data(), m_stHead.dwBlockSize * it.dwBlockIndex, m_stHead.dwBlockSize);
      it.dwRealSize == |block| <= it.cBlockBuffer.Length && it.cBlockBuffer[..|block|] == block
    }

    /** Decodes the block head at the front of the cache. */
    method ReadHead(it: BinlogIterator) returns (good: bool)
      requires BLOCK_HEAD <= it.dwRealSize <= it.cBlockBuffer.Length <= SSIZE_MAX
      modifies it`stBlockHead
      ensures good <==> it.cBlockBuffer[0] == BLOCK_MAGIC
      ensures it.stBlockHead.cMagic == it.cBlockBuffer[0] as nat
      ensures it.stBlockHead.dwCreateTime == FromBigEndian(it.cBlockBuffer[1..5])
    {
      hide FromBigEndian;
      var ioBlockBuf := new IOBuffer(it.cBlockBuffer, 0, it.dwRealSize, it.dwRealSize);
      ghost var unread := ioBlockBuf.Unread();
      var magic := ioBlockBuf.GetUInt(1);
      var time := ioBlockBuf.GetUInt(4);
      it.stBlockHead := BinlogBlockHead(magic.value, time.value);
      OneByteBack(unread[..1]);
      assert unread[1..][..4] == it.cBlockBuffer[1..5];
      good := it.stBlockHead.cMagic == BLOCK_MAGIC;
    }

    /** The reader stands between records of a well laid-out log. */
    ghost predicate Following(it: BinlogIterator)
      requires Valid()
      reads this, it`dwBlockIndex, it`dwOffset, it`dwRealSize
    {
      Laid(Data(), 0, m_stHead.dwBlockSize) && OnTrack(Data(), m_stHead.dwBlockSize, it.Where(m_stHead.dwBlockSize))
    }

    /** The reader is parked: it has skipped the block to come. */
    ghost predicate IsParked(it: BinlogIterator)
      requires Valid()
      reads this, it`dwBlockIndex, it`dwOffset, it`dwRealSize
    {
      Parked(Data(), m_stHead.dwBlockSize, it.Where(m_stHead.dwBlockSize))
    }

    /** The reader would be, if it met the end of the file from here. */
    ghost predicate WillPark(it: BinlogIterator)
      requires Valid()
      reads this, it`dwBlockIndex, it`dwOffset, it`dwRealSize
    {
      Parks(Data(), m_stHead.dwBlockSize, it.Where(m_stHead.dwBlockSize))
    }

    /** The end of the file was met from `before`. */
    ghost predicate AfterEof(it: BinlogIterator, before: Position)
      requires Valid()
      reads this, it`dwBlockIndex, it`dwOffset, it`dwRealSize
    {
      MetEnd(Data(), m_stHead.dwBlockSize, before, it.Where(m_stHead.dwBlockSize))
    }

    /** First branch of the loading loop: the reader is past its block and takes the next one. */
    method ReadNextBlock(it: BinlogIterator) returns (s: Status)
      requires Reading(it) && m_stHead.dwBlockSize <= it.dwOffset && it.cBlockBuffer.Length <= SSIZE_MAX
      modifies it`dwBlockIndex, it`dwOffset, it`dwRealSize, it`stBlockHead, it.cBlockBuffer
      ensures it.dwBlockIndex == old(it.dwBlockIndex) + 1 && Fresh(it)
      ensures s == Bad ==> old(Pending(it)) == [Short]
      ensures s == Eof ==>
              old(Pending(it)) == [] == Pending(it) && it.dwRealSize == 0 && it.dwOffset == old(it.dwOffset)
      ensures s == Go ==> Pending(it) == old(Pending(it)) && BLOCK_HEAD <= it.dwRealSize
      ensures s == Go ==> it.dwOffset <= m_stHead.dwBlockSize
      ensures s != Bad && old(Following(it)) ==> Following(it)
      ensures s == Eof && old(Following(it)) ==> AfterEof(it, old(it.Where(m_stHead.dwBlockSize)))
    {
      hide Blocks, Scan, End, Look, Remaining, OnTrack, Laid, Block, MetEnd;
      ghost var B, p := m_stHead.dwBlockSize, it.Where(m_stHead.dwBlockSize);
      NextBlockCases(Data(), B, p);
      if Block(Data(), p.start + B, B) == [] && OnTrack(Data(), B, p) {
        ParksBehind(Data(), B, p);
      }
      if Laid(Data(), 0, B) && OnTrack(Data(), B, p) {
        NextBlockTrack(Data(), B, p);
      }
      assert B * (it.dwBlockIndex + 1) == B * it.dwBlockIndex + B;
      it.dwBlockIndex := it.dwBlockIndex + 1;
      ReadBlock(it);
      if it.dwRealSize == 0 {
        return Eof;
      } else if it.dwRealSize < BLOCK_HEAD {
        return Bad;
      }
      var good := ReadHead(it);
      it.dwOffset := if good then BLOCK_HEAD else m_stHead.dwBlockSize;
      s := Go;
    }

    /** Second branch: a partly filled block is used up; it is read again if the file has grown. */
    method Reload(it: BinlogIterator) returns (s: Status)
      requires Reading(it) && it.cBlockBuffer.Length <= SSIZE_MAX
      requires it.dwOffset < m_stHead.dwBlockSize && 0 < it.dwRealSize < m_stHead.dwBlockSize
               && it.dwRealSize <= it.dwOffset
      modifies it`dwRealSize, it.cBlockBuffer
      ensures s == Eof ==>
                && old(Pending(it)) == [] == Pending(it) && it.dwRealSize == old(it.dwRealSize)
                && it.Cached(Data(), m_stHead.dwBlockSize)
      ensures s != Eof ==> s == Go && Fresh(it) && it.dwOffset < it.dwRealSize && BLOCK_HEAD <= it.dwRealSize
      ensures Pending(it) == old(Pending(it))
      ensures old(Following(it)) ==> Following(it)
      ensures s == Eof && old(Following(it)) ==> AfterEof(it, old(it.Where(m_stHead.dwBlockSize)))
    {
      hide Blocks, Scan, End, Look, Remaining, OnTrack, Laid, Block, ToRead, FileOffset, MetEnd;
      ghost var B, p := m_stHead.dwBlockSize, it.Where(m_stHead.dwBlockSize);
      BlockSize(Data(), p.start, B);
      OffsetFits(it.dwBlockIndex, it.dwOffset);
      var dwReadOffset := FileOffset(it.dwBlockIndex, it.dwOffset);
      if dwReadOffset >= |m_File| {
        AtEnd(Data(), B, p);
        if OnTrack(Data(), B, p) {
          StaysInside(Data(), B, p);
        }
        return Eof;
      }
      ReadBlock(it);
      s := Go;
    }

    /** Third branch: nothing of the block has been read yet. */
    method LoadBlock(it: BinlogIterator) returns (s: Status)
      requires Reading(it) && it.cBlockBuffer.Length <= SSIZE_MAX
      requires it.dwOffset < m_stHead.dwBlockSize && it.dwRealSize == 0
      modifies it`dwOffset, it`dwRealSize, it`stBlockHead, it.cBlockBuffer
      ensures Fresh(it) && old(it.dwOffset) <= it.dwOffset
      ensures s == Bad ==> old(Pending(it)) == [Short]
      ensures s == Eof ==>
              old(Pending(it)) == [] == Pending(it) && it.dwRealSize == 0 && it.dwOffset == old(it.dwOffset)
      ensures s == Go ==> Pending(it) == old(Pending(it)) && BLOCK_HEAD <= it.dwRealSize
      ensures s == Go ==> it.dwOffset <= m_stHead.dwBlockSize
      ensures s != Bad && old(Following(it)) ==> Following(it)
      ensures s == Eof && old(Following(it)) ==> AfterEof(it, old(it.Where(m_stHead.dwBlockSize)))
    {
      hide Blocks, Scan, End, Look, Remaining, OnTrack, Laid, Block, MetEnd;
      ghost var B, p := m_stHead.dwBlockSize, it.Where(m_stHead.dwBlockSize);
      FirstBlockCases(Data(), B, p);
      ReadBlock(it);
      if it.dwRealSize == 0 {
        BlockSize(Data(), p.start, B);
        if OnTrack(Data(), B, p) {
          StaysInside(Data(), B, p);
        }
        return Eof;
      } else if it.dwRealSize < BLOCK_HEAD {
        return Bad;
      }
      if Laid(Data(), 0, B) && OnTrack(Data(), B, p) {
        FirstBlockTrack(Data(), B, p);
      }
      var good := ReadHead(it);
      if !good {
        it.dwOffset := m_stHead.dwBlockSize;
      } else if it.dwOffset < BLOCK_HEAD {
        it.dwOffset := BLOCK_HEAD;
      }
      s := Go;
    }

    lemma StillAddressable(it: BinlogIterator)
      requires Valid() && InRange(it)
      requires Block(Data(), m_stHead.dwBlockSize * it.dwBlockIndex, m_stHead.dwBlockSize) != []
      ensures Addressable(it) && m_stHead.dwBlockSize * it.dwBlockIndex < |Data()|
    {
    }

    lemma FreshIsCached(it: BinlogIterator)
      requires Valid() && Fresh(it) && it.cBlockBuffer.Length == it.dwBlockSize
               && m_stHead.dwBlockSize <= it.dwBlockSize
      requires it.dwOffset <= m_stHead.dwBlockSize && (it.dwRealSize == 0 || BLOCK_HEAD <= it.dwRealSize)
      ensures it.Cached(Data(), m_stHead.dwBlockSize) && it.dwRealSize <= m_stHead.dwBlockSize
      ensures it.dwRealSize > 0 ==> Block(Data(), m_stHead.dwBlockSize * it.dwBlockIndex, m_stHead.dwBlockSize) != []
    {
      hide End, Look;
      var block := Block(Data(), m_stHead.dwBlockSize * it.dwBlockIndex, m_stHead.dwBlockSize);
      assert block[..|block|] == block;
    }

    lemma CachedInFile(it: BinlogIterator)
      requires Reading(it) && 0 < it.dwRealSize
      ensures m_stHead.dwBlockSize * it.dwBlockIndex < |Data()| && it.dwRealSize <= m_stHead.dwBlockSize
    {
      hide End, Look;
    }

    /** One turn of the loading loop. */
    method Turn(it: BinlogIterator) returns (s: Status)
      requires Reading(it) && it.cBlockBuffer.Length <= SSIZE_MAX && it.dwRealSize <= it.dwOffset
      modifies it`dwBlockIndex, it`dwOffset, it`dwRealSize, it`stBlockHead, it.cBlockBuffer
      ensures s == Bad ==> old(Pending(it)) == [Short]
      ensures s == Eof ==> old(Pending(it)) == [] == Pending(it) && it.Cached(Data(), m_stHead.dwBlockSize)
      ensures s == Go ==> Reading(it) && Pending(it) == old(Pending(it))
      ensures s == Go ==> m_stHead.dwBlockSize * it.dwBlockIndex < |Data()| && it.dwRealSize <= m_stHead.dwBlockSize
      ensures if old(it.dwOffset) >= m_stHead.dwBlockSize then it.dwBlockIndex == old(it.dwBlockIndex) + 1
              else it.dwBlockIndex == old(it.dwBlockIndex) && old(it.dwOffset) <= it.dwOffset
                   && (s == Go && it.dwOffset == old(it.dwOffset) ==> old(it.dwRealSize) < it.dwRealSize)
      ensures s != Bad && old(Following(it)) ==> Following(it)
      ensures s == Eof && old(Following(it)) ==> AfterEof(it, old(it.Where(m_stHead.dwBlockSize)))
      ensures s == Go ==> m_stHead.dwBlockSize * old(it.dwBlockIndex) < |Data()|
    {
      hide Blocks, Scan, End, Look, Remaining, OnTrack, Laid, Block, Fresh, Following, Pending, AfterEof;
      assert m_stHead.dwBlockSize * (it.dwBlockIndex + 1)
             == m_stHead.dwBlockSize * it.dwBlockIndex + m_stHead.dwBlockSize;
      if it.dwOffset >= m_stHead.dwBlockSize {
        s := ReadNextBlock(it);
      } else if it.dwRealSize > 0 && it.dwRealSize < m_stHead.dwBlockSize {
        s := Reload(it);
        if s == Eof {
          return;
        }
      } else {
        if it.dwRealSize > 0 {
          CachedInFile(it);
        }
        s := LoadBlock(it);
      }
      if s != Bad {
        FreshIsCached(it);
        if s == Go {
          StillAddressable(it);
        }
      }
    }

    /** The loading loop: brings the byte under the reader into the cache, or finds the end of the file. */
    method Fill(it: BinlogIterator) returns (s: Status)
      requires Reading(it) && it.cBlockBuffer.Length <= SSIZE_MAX
      modifies it`dwBlockIndex, it`dwOffset, it`dwRealSize, it`stBlockHead, it.cBlockBuffer
      ensures s == Bad ==> old(Pending(it)) == [Short]
      ensures s == Eof ==> old(Pending(it)) == [] == Pending(it) && it.Cached(Data(), m_stHead.dwBlockSize)
      ensures s == Go ==> Reading(it) && Pending(it) == old(Pending(it)) && it.dwOffset < it.dwRealSize
      ensures s == Go ==> m_stHead.dwBlockSize * it.dwBlockIndex < |Data()|
      ensures it.dwBlockIndex > old(it.dwBlockIndex)
              || (it.dwBlockIndex == old(it.dwBlockIndex) && (s == Go ==> old(it.dwOffset) < m_stHead.dwBlockSize))
      ensures m_stHead.dwBlockSize * it.dwBlockIndex <= m_stHead.dwBlockSize * old(it.dwBlockIndex)
              + m_stHead.dwBlockSize
              || m_stHead.dwBlockSize * it.dwBlockIndex <= |Data()| + m_stHead.dwBlockSize
      ensures s != Bad && old(Following(it)) ==> Following(it)
      ensures s == Eof && old(Following(it)) ==> AfterEof(it, old(it.Where(m_stHead.dwBlockSize)))
      ensures s == Go ==> m_stHead.dwBlockSize * old(it.dwBlockIndex) < |Data()|
    {
      hide Blocks, Scan, End, Look, Remaining, OnTrack, Laid, Block, Fresh, Following, Pending, MetEnd;
      ghost var B, p := m_stHead.dwBlockSize, it.Where(m_stHead.dwBlockSize);
      if it.dwOffset < it.dwRealSize {
        CachedInFile(it);
      }
      while it.dwOffset >= it.dwRealSize
        invariant Reading(it) && Pending(it) == old(Pending(it))
        invariant it.dwOffset < it.dwRealSize ==> B * it.dwBlockIndex < |Data()| && it.dwRealSize <= B
        invariant it.dwBlockIndex > old(it.dwBlockIndex)
                  || (it.dwBlockIndex == old(it.dwBlockIndex)
                     && (old(it.dwOffset) < B || it.dwOffset == old(it.dwOffset)))
        invariant it.dwBlockIndex == old(it.dwBlockIndex) || B * it.dwBlockIndex < |Data()|
        invariant old(Following(it)) ==> Following(it)
        invariant it.dwOffset < it.dwRealSize ==> B * old(it.dwBlockIndex) < |Data()|
        invariant it.Where(B) == p || (B * it.dwBlockIndex < |Data()| && p.start < |Data()|)
        decreases |Data()| - B * it.dwBlockIndex, B - it.dwOffset, B - it.dwRealSize
      {
        assert B * (it.dwBlockIndex + 1) == B * it.dwBlockIndex + B;
        ghost var q := it.Where(B);
        s := Turn(it);
        if s != Go {
          if q != p && s == Eof && old(Following(it)) {
            MetEndFrom(Data(), B, p, q, it.Where(B));
          }
          return;
        }
      }
      s := Go;
    }

    lemma OffsetFits(blockIndex: nat, offset: nat)
      requires Valid() && m_stHead.dwBlockSize * blockIndex + DATA_OFFSET + offset < TWO32
      ensures FileOffset(blockIndex, offset) == DATA_OFFSET + m_stHead.dwBlockSize * blockIndex + offset
    {
    }

    /** Offsets wrap: for a block size that divides 2^32, block 2^32 / B is block 0 again. */
    lemma WrapsAround(blockIndex: nat, offset: nat)
      requires Valid() && m_stHead.dwBlockSize * blockIndex == TWO32
      ensures FileOffset(blockIndex, offset) == FileOffset(0, offset)
    {
    }

    /** Decodes the record under the reader from the cache. */
    method ReadRecord(it: BinlogIterator) returns (p: Probe)
      requires Valid() && it.dwOffset < it.dwRealSize <= it.cBlockBuffer.Length <= SSIZE_MAX && it.dwRealSize < TWO32
      requires m_stHead.dwBlockSize * it.dwBlockIndex + DATA_OFFSET + it.dwOffset < TWO32
      modifies it`cLogBuffer, it`dwLogSize, it`dwLogOffset
      ensures p == Look(old(it.cBlockBuffer[..it.dwRealSize]), it.dwOffset)
      ensures p.Found? ==>
                && it.dwLogSize == p.len && it.cLogBuffer == it.dwOffset + 5
                && it.dwLogOffset == DATA_OFFSET + m_stHead.dwBlockSize * it.dwBlockIndex + it.dwOffset
    {
      hide Look, FileOffset;
      OffsetFits(it.dwBlockIndex, it.dwOffset);
      it.dwLogOffset := FileOffset(it.dwBlockIndex, it.dwOffset);
      p := DecodeFrame(it);
    }

    method DecodeFrame(it: BinlogIterator) returns (p: Probe)
      requires it.dwOffset < it.dwRealSize <= it.cBlockBuffer.Length <= SSIZE_MAX && it.dwRealSize < TWO32
      modifies it`cLogBuffer, it`dwLogSize
      ensures p == Look(old(it.cBlockBuffer[..it.dwRealSize]), it.dwOffset)
      ensures p.Found? ==> it.dwLogSize == p.len && it.cLogBuffer == it.dwOffset + 5
    {
      hide FromBigEndian, Look;
      ghost var cache, off := it.cBlockBuffer[..it.dwRealSize], it.dwOffset;
      var dwLogBuffSize := it.dwRealSize - it.dwOffset;
      if it.cBlockBuffer[it.dwOffset] != SMAGIC || dwLogBuffSize < 6 {
        LookSteps(cache, off, 0);
        assert Look(cache, off) == Nothing;
        return Nothing;
      }
      var ioLogBuf := new IOBuffer(it.cBlockBuffer, it.dwOffset, dwLogBuffSize, dwLogBuffSize);
      var dwLogSize := DecodeSize(ioLogBuf);
      assert cache[off + 1..off + 5] == it.cBlockBuffer[off + 1..off + 5];
      LookSteps(cache, off, dwLogSize);
      var dwLogRealSize := (6 + dwLogSize) % TWO32;
      if dwLogBuffSize < dwLogRealSize {
        assert Look(cache, off) == Nothing;
        return Nothing;
      }
      it.dwLogSize := dwLogSize;
      it.cLogBuffer := ioLogBuf.m_Start + ioLogBuf.m_ReadPosition;
      p := DecodeEnd(ioLogBuf, dwLogSize);
      assert p == Look(cache, off);
    }

    /** Skips the payload and reads the end byte. */
    method DecodeEnd(ioLogBuf: IOBuffer, dwLogSize: nat) returns (p: Probe)
      requires ioLogBuf.Valid() && ioLogBuf.m_ReadPosition == 5 && dwLogSize < TWO32
      modifies ioLogBuf`m_ReadPosition
      ensures p == if 5 + dwLogSize >= ioLogBuf.m_AvailableReadSize then Wraps
                   else if ioLogBuf.m_Buffer[ioLogBuf.m_Start + 5 + dwLogSize] == EMAGIC then Found(dwLogSize)
                   else Nothing
    {
      ioLogBuf.ReadSeek(dwLogSize);
      var cMagicE := DecodeByte(ioLogBuf);
      if cMagicE.Overflow? {
        return Wraps;
      }
      if cMagicE.value != EMAGIC {
        return Nothing;
      }
      p := Found(dwLogSize);
    }

    /** Reads the start byte and the length of a frame. */
    method DecodeSize(ioLogBuf: IOBuffer) returns (dwLogSize: nat)
      requires ioLogBuf.Valid() && ioLogBuf.m_ReadPosition == 0 && 6 <= ioLogBuf.m_AvailableReadSize
      modifies ioLogBuf`m_ReadPosition
      ensures ioLogBuf.Valid() && ioLogBuf.m_ReadPosition == 5
      ensures dwLogSize == FromBigEndian(ioLogBuf.m_Buffer[ioLogBuf.m_Start + 1..ioLogBuf.m_Start + 5]) < TWO32
    {
      hide FromBigEndian;
      ghost var unread := ioLogBuf.Unread();
      var cMagicS := ioLogBuf.GetUInt(1);
      var size := ioLogBuf.GetUInt(4);
      assert unread[1..][..4] == ioLogBuf.m_Buffer[ioLogBuf.m_Start + 1..ioLogBuf.m_Start + 5];
      FourFit(unread[1..][..4]);
      dwLogSize := size.value;
    }

    /** Reads one byte. */
    method DecodeByte(io: IOBuffer) returns (r: Result<nat>)
      requires io.Valid()
      modifies io`m_ReadPosition
      ensures io.Valid()
      ensures r.Overflow? <==> old(io.m_ReadPosition) == io.m_AvailableReadSize
      ensures r.Ok? ==> r.value == io.m_Buffer[io.m_Start + old(io.m_ReadPosition)]
    {
      ghost var unread := io.Unread();
      r := io.GetUInt(1);
      if r.Ok? {
        OneByteBack(unread[..1]);
      }
    }

    lemma IndexGrows(before: nat, after: nat)
      requires Valid() && before < after
      ensures m_stHead.dwBlockSize * before < m_stHead.dwBlockSize * after
    {
      MulMono(before + 1, after, m_stHead.dwBlockSize);
    }

    /** The record in the cache is the record in the block. */
    lemma CacheTells(it: BinlogIterator, p: Probe)
      requires Reading(it) && it.dwOffset < it.dwRealSize && p == Look(it.cBlockBuffer[..it.dwRealSize], it.dwOffset)
      ensures var block := Block(Data(), m_stHead.dwBlockSize * it.dwBlockIndex, m_stHead.dwBlockSize);
              var cache := it.cBlockBuffer[..it.dwRealSize];
              && it.dwOffset < it.dwRealSize <= |block| <= m_stHead.dwBlockSize
              && p == Look(block, it.dwOffset)
              && (p.Found? ==>
                    && it.dwOffset + 6 + p.len <= it.dwRealSize
                    && it.cBlockBuffer[it.dwOffset + 5..it.dwOffset + 5 + p.len]
                       == block[it.dwOffset + 5..it.dwOffset + 5 + p.len]
                    && CacheOf(block, cache, it.dwOffset + 6 + p.len))
    {
      hide Look, End, Block;
      var block := Block(Data(), m_stHead.dwBlockSize * it.dwBlockIndex, m_stHead.dwBlockSize);
      var cache := it.cBlockBuffer[..it.dwRealSize];
      BlockSize(Data(), m_stHead.dwBlockSize * it.dwBlockIndex, m_stHead.dwBlockSize);
      CacheDecides(block, cache, it.dwOffset, p);
      if p.Found? {
        ArraySlice(it.cBlockBuffer, it.dwRealSize, it.dwOffset + 5, it.dwOffset + 5 + p.len);
      }
    }

    /** Takes the record under the reader. */
    method Consume(it: BinlogIterator, len: nat)
      requires Reading(it) && it.dwOffset < it.dwRealSize
      requires Look(it.cBlockBuffer[..it.dwRealSize], it.dwOffset) == Found(len)
      modifies it`dwOffset
      ensures Reading(it) && it.dwOffset == old(it.dwOffset) + 6 + len
              && old(it.dwOffset) + 5 + len <= it.cBlockBuffer.Length
      ensures old(Pending(it))
           == [Record(DATA_OFFSET + m_stHead.dwBlockSize * it.dwBlockIndex + old(it.dwOffset),
                      it.cBlockBuffer[old(it.dwOffset) + 5..old(it.dwOffset) + 5 + len])] + Pending(it)
      ensures old(Following(it)) ==> Following(it)
    {
      hide Look, End, Scan, Blocks, Laid, Remaining, OnTrack, Block;
      ghost var B, p := m_stHead.dwBlockSize, it.Where(m_stHead.dwBlockSize);
      CacheTells(it, Found(len));
      TakeRecord(Data(), B, p);
      it.dwOffset := it.dwOffset + (6 + len);
    }

    /** The reader gives its block up. */
    method Skip(it: BinlogIterator)
      requires Reading(it) && it.dwOffset < it.dwRealSize
      requires Look(it.cBlockBuffer[..it.dwRealSize], it.dwOffset) == Nothing
      modifies it`dwOffset
      ensures Reading(it) && it.dwOffset == m_stHead.dwBlockSize && Pending(it) == old(Pending(it))
      ensures old(Following(it)) ==> Following(it)
    {
      hide Look, End, Scan, Blocks, Laid, Remaining, OnTrack, Block;
      ghost var B, p := m_stHead.dwBlockSize, it.Where(m_stHead.dwBlockSize);
      CacheTells(it, Nothing);
      GiveUp(Data(), B, p);
      if Laid(Data(), 0, B) && OnTrack(Data(), B, p) {
        TrackBoundary(Data(), B, p);
        LaidFrom(Data(), p.start, B);
        GiveUpOnTrack(Data(), B, p);
      }
      it.dwOffset := m_stHead.dwBlockSize;
    }

    /** Of the items the reader had in front of it, the call delivered the first and left the rest. */
    ghost predicate Delivered(it: BinlogIterator, r: Outcome, items: seq<Item>)
      requires Valid()
      reads this, it, it.cBlockBuffer
    {
      if items == [] then r == Returned(0) && Pending(it) == []
      else match items[0]
           case Record(offset, payload) =>
             && r == Returned(6 + |payload|) && it.dwLogOffset == offset && it.dwLogSize == |payload|
             && it.cLogBuffer + it.dwLogSize <= it.cBlockBuffer.Length && it.Payload() == payload
             && Pending(it) == items[1..]
             && Reading(it)
           case Overflow(_) => r == Thrown && Pending(it) == items
           case Short => r == Returned(-1)
    }

    /** What stands under the reader: a record, something to skip the block for, or a length that wraps. */
    method TryRecord(it: BinlogIterator) returns (done: bool, r: Outcome)
      requires Reading(it) && it.cBlockBuffer.Length <= SSIZE_MAX && it.dwOffset < it.dwRealSize
      modifies it`dwOffset, it`cLogBuffer, it`dwLogSize, it`dwLogOffset
      ensures done ==> Delivered(it, r, old(Pending(it))) && r != Returned(0) && r != Returned(-1)
      ensures done ==> it.Cached(Data(), m_stHead.dwBlockSize)
      ensures !done ==> Reading(it) && Pending(it) == old(Pending(it)) && it.dwOffset == m_stHead.dwBlockSize
      ensures old(Following(it)) ==> Following(it)
    {
      hide Look, End, Scan, Blocks, Laid, Remaining, OnTrack, Block, Following, ToRead, CacheOf;
      CachedInFile(it);
      var p := ReadRecord(it);
      match p
      case Nothing =>
        Skip(it);
        done, r := false, Returned(0);
      case Wraps =>
        CacheTells(it, p);
        HitWrap(Data(), m_stHead.dwBlockSize, it.Where(m_stHead.dwBlockSize));
        done, r := true, Thrown;
      case Found(len) =>
        Consume(it, len);
        done, r := true, Returned(it.dwLogSize + 6);
        assert it.Payload() == old(Pending(it))[0].payload;
    }

    /** One turn of the outer loop: a result, or a block given up. */
    method Attempt(it: BinlogIterator) returns (done: bool, r: Outcome)
      requires Reading(it) && it.cBlockBuffer.Length <= SSIZE_MAX
      modifies it, it.cBlockBuffer
      ensures done ==> Delivered(it, r, old(Pending(it)))
      ensures done && r != Returned(-1) ==> it.Cached(Data(), m_stHead.dwBlockSize)
      ensures !done ==> Reading(it) && Pending(it) == old(Pending(it)) && it.dwOffset == m_stHead.dwBlockSize
      ensures !done || (r != Returned(0) && r != Returned(-1)) ==>
                m_stHead.dwBlockSize * it.dwBlockIndex < |Data()|
                    && m_stHead.dwBlockSize * old(it.dwBlockIndex) < |Data()|
      ensures !done && it.dwBlockIndex <= old(it.dwBlockIndex) ==>
                it.dwBlockIndex == old(it.dwBlockIndex) && old(it.dwOffset) < m_stHead.dwBlockSize
      ensures m_stHead.dwBlockSize * it.dwBlockIndex <= m_stHead.dwBlockSize * old(it.dwBlockIndex)
              + m_stHead.dwBlockSize
              || m_stHead.dwBlockSize * it.dwBlockIndex <= |Data()| + m_stHead.dwBlockSize
      ensures !(done && r == Returned(-1)) && old(Following(it)) ==> Following(it)
      ensures done && r == Returned(0) && old(Following(it)) ==> AfterEof(it, old(it.Where(m_stHead.dwBlockSize)))
    {
      hide Following, Pending, ToRead, CacheOf, AfterEof, Block;
      var s := Fill(it);
      if s == Eof {
        return true, Returned(0);
      } else if s == Bad {
        return true, Returned(-1);
      }
      label Filled:
      done, r := TryRecord(it);
    }

    /** One call of Next, on any file and in any state of the reader. */
    method Next(it: BinlogIterator) returns (r: Outcome)
      requires Valid() && it.cBlockBuffer.Length == it.dwBlockSize <= SSIZE_MAX
      requires m_stHead.dwBlockSize <= it.dwBlockSize ==> Reading(it)
      modifies it, it.cBlockBuffer
      ensures it.dwBlockSize < m_stHead.dwBlockSize ==>
                r == Returned(-1) && it.dwBlockIndex == old(it.dwBlockIndex) && it.dwOffset == old(it.dwOffset)
      ensures m_stHead.dwBlockSize <= it.dwBlockSize ==> Delivered(it, r, old(Pending(it)))
      ensures m_stHead.dwBlockSize <= it.dwBlockSize && r != Returned(-1) ==>
                it.Cached(Data(), m_stHead.dwBlockSize) && (old(Following(it)) ==> Following(it))
      ensures r == Returned(0) && old(Following(it)) ==>
                AfterEof(it, old(it.Where(m_stHead.dwBlockSize)))
                && (IsParked(it) <==> old(WillPark(it)))
      ensures r != Returned(0) && r != Returned(-1) ==>
                && m_stHead.dwBlockSize * it.dwBlockIndex < |Data()|
                   && m_stHead.dwBlockSize * old(it.dwBlockIndex) < |Data()|
                && !IsParked(it) && !old(IsParked(it))
      ensures m_stHead.dwBlockSize * it.dwBlockIndex <= m_stHead.dwBlockSize * old(it.dwBlockIndex)
              + m_stHead.dwBlockSize
              || m_stHead.dwBlockSize * it.dwBlockIndex <= |Data()| + m_stHead.dwBlockSize
    {
      hide Delivered, Following, Pending, ToRead, MetEnd, Parks, Parked;
      if it.dwBlockSize < m_stHead.dwBlockSize {
        return Returned(-1);
      }
      ghost var B, p := m_stHead.dwBlockSize, it.Where(m_stHead.dwBlockSize);
      var done := false;
      r := Returned(0);
      while !done
        invariant done ==> Delivered(it, r, old(Pending(it)))
        invariant done && r != Returned(-1) ==> it.Cached(Data(), B) && (old(Following(it)) ==> Following(it))
        invariant !done ==> Reading(it) && Pending(it) == old(Pending(it)) && (old(Following(it)) ==> Following(it))
        invariant !done ==> it.dwBlockIndex == old(it.dwBlockIndex) || B * it.dwBlockIndex < |Data()|
        invariant B * it.dwBlockIndex <= B * old(it.dwBlockIndex) + B || B * it.dwBlockIndex <= |Data()| + B
        invariant !done ==> it.Where(B) == p || (B * it.dwBlockIndex < |Data()| && p.start < |Data()|)
        invariant done && r != Returned(0) && r != Returned(-1) ==> B * it.dwBlockIndex < |Data()| && p.start < |Data()|
        invariant done && r == Returned(0) && old(Following(it)) ==> MetEnd(Data(), B, p, it.Where(B))
        decreases if done then 0 else 1, |Data()| - B * it.dwBlockIndex, if B <= it.dwOffset then 0 else 1
      {
        ghost var index, q := it.dwBlockIndex, it.Where(B);
        done, r := Attempt(it);
        if q != p && done && r == Returned(0) && old(Following(it)) {
          MetEndFrom(Data(), B, p, q, it.Where(B));
        }
        if index < it.dwBlockIndex {
          IndexGrows(index, it.dwBlockIndex);
        }
      }
      if r != Returned(0) && r != Returned(-1) {
        ParksInside(Data(), B, p);
        ParksInside(Data(), B, it.Where(B));
      }
      if r == Returned(0) && old(Following(it)) {
        MetEndParks(Data(), B, p, it.Where(B));
      }
    }
  }

  /** Outcome of one turn of the loading loop. */
  datatype Status = Go | Eof | Bad

  lemma OneByteBack(s: seq<byte>)
    requires |s| == 1
    ensures FromBigEndian(s) == s[0]
  {
    assert s[..0] == [];
  }

  lemma ArraySlice(a: array<byte>, n: nat, from: nat, to: nat)
    requires from <= to <= n <= a.Length
    ensures a[from..to] == a[..n][from..to]
  {
  }

  lemma FourFit(s: seq<byte>)
    requires |s| == 4
    ensures FromBigEndian(s) < TWO32
  {
    FromBigEndianFits(s);
    FourBytes();
  }

  lemma StandsAt(data: seq<byte>, B: nat, offset: nat)
    requires 0 < B && DATA_OFFSET <= offset
    ensures var n := offset - DATA_OFFSET;
            && n % B < B && StartOf(n, B) == B * (n / B) <= n
            && ReadsFrom(data, B, offset, ToRead(data, B, Position(B * (n / B), n % B, false)))
  {
    hide Remaining;
    assert StartOf(offset - DATA_OFFSET, B) == B * ((offset - DATA_OFFSET) / B);
  }

  /** A reader at the offset of a record. */
  lemma FromRecord(data: seq<byte>, B: nat, offset: nat, pending: seq<Item>)
    requires 0 < B && Laid(data, 0, B) && ReadsFrom(data, B, offset, pending)
    ensures DATA_OFFSET <= offset
    ensures var items, n := Blocks(data, 0, B), offset - DATA_OFFSET;
            forall i :: 0 <= i < |items| && items[i].Record? && items[i].offset == offset ==>
              OnTrack(data, B, Position(StartOf(n, B), n % B, false)) && pending == items[i..]
  {
    hide Blocks, Laid, OnTrack, Remaining;
    ghost var items, n := Blocks(data, 0, B), offset - DATA_OFFSET;
    EmptyLog(B);
    forall i | 0 <= i < |items| && items[i].Record? && items[i].offset == offset
      ensures OnTrack(data, B, Position(StartOf(n, B), n % B, false)) && pending == items[i..]
    {
      OffsetLeadsBack(data, 0, B, i);
      OffsetOnTrack(data, 0, B, i);
    }
  }

  lemma RecordsBehindHead(data: seq<byte>, B: nat)
    requires 0 < B
    ensures forall i :: 0 <= i < |Blocks(data, 0, B)| && Blocks(data, 0, B)[i].Record? ==>
              DATA_OFFSET <= Blocks(data, 0, B)[i].offset
  {
    hide Blocks;
    forall i | 0 <= i < |Blocks(data, 0, B)| && Blocks(data, 0, B)[i].Record?
      ensures DATA_OFFSET <= Blocks(data, 0, B)[i].offset
    {
      EmptyLog(B);
      var s := DeliveredAreFrames(data, 0, B, i);
    }
  }

  lemma BlockSize(data: seq<byte>, start: nat, B: nat)
    requires 0 < B
    ensures |Block(data, start, B)|
            == (if |data| <= start then 0 else if start + B <= |data| then B else |data| - start)
  {
  }

  lemma FromTheStart(data: seq<byte>, B: nat)
    requires 0 < B
    ensures Remaining(data, B, 0, 0, false) == Blocks(data, 0, B)
  {
  }

  lemma Regroup(a: seq<byte>, b: seq<byte>, c: seq<byte>, d: seq<byte>, e: seq<byte>, f: seq<byte>)
    ensures a + b + c + d + e + f == a + (b + c + d + e + f)
  {
  }

  lemma OneByte(b: byte)
    ensures BigEndian(1, b) == [b] && Pow256(1) == 0x100
  {
    assert BigEndian(0, b / 256) == [];
  }

  lemma WrittenBehind(file: seq<byte>, gap: nat, bytes: seq<byte>)
    requires DATA_OFFSET <= |file|
    ensures var written := WriteAt(file, |file| + gap, bytes);
            && |written| == |file| + gap + |bytes|
            && written[DATA_OFFSET..] == file[DATA_OFFSET..] + (Zeros(gap) + bytes)
            && (gap == 0 ==> written[DATA_OFFSET..] == file[DATA_OFFSET..] + bytes)
  {
    assert (file + Zeros(gap) + bytes)[DATA_OFFSET..] == file[DATA_OFFSET..] + (Zeros(gap) + bytes);
    assert gap == 0 ==> Zeros(gap) + bytes == bytes;
  }

  /** Where a write goes and what it writes, against what is behind the file head afterwards. */
  lemma WriteEffect(file: seq<byte>, B: nat, now: nat, payload: seq<byte>, pos: nat, bytes: seq<byte>, offset: nat)
    requires 0 < B && DATA_OFFSET <= |file|
    requires var remain := B - (|file| - DATA_OFFSET) % B;
             if remain == B then pos == |file| && bytes == FreshBlock(now, payload) && offset == |file| + BLOCK_HEAD
             else if remain < RealSize(payload)
             then pos == |file| + remain && bytes == FreshBlock(now, payload) && offset == |file| + remain + BLOCK_HEAD
             else pos == |file| && bytes == Frame(payload) && offset == |file|
    ensures |WriteAt(file, pos, bytes)| == pos + |bytes|
    ensures WriteAt(file, pos, bytes)[DATA_OFFSET..] == Append(file[DATA_OFFSET..], B, now, payload)
    ensures offset == AppendOffset(file[DATA_OFFSET..], B, payload)
  {
    hide WriteAt, FreshBlock, Frame, Zeros;
    WrittenBehind(file, pos - |file|, bytes);
  }

  lemma TruncatedSize(n: nat)
    ensures LittleEndian(4, Ntohl(n % TWO32)) == BigEndian(4, n)
  {
    FourBytes();
    SwapStores(4, n % TWO32);
    BigEndianRoundTrip(4, n);
    BigEndianRoundTrip(4, n % TWO32);
    BigEndianInverse(BigEndian(4, n));
    BigEndianInverse(BigEndian(4, n % TWO32));
  }
}

/** The bounded codec: a window of a byte array with a read and a write position. */
module Codec {
  import opened Bytes

  const SIZE_MODULUS := 0x1_0000_0000_0000_0000
  const SSIZE_MAX := 0x7FFF_FFFF_FFFF_FFFF

  /** A value, or OverflowIOException. */
  datatype Result<+T> = Ok(value: T) | Overflow

  /** A string on the wire: a 16-bit length, then the bytes. The length is truncated, the bytes are not. */
  function EncodeString(s: seq<byte>): seq<byte> {
    BigEndian(2, |s|) + s
  }

  /** The string at the front of `wire`, and what follows it. */
  function DecodeString(wire: seq<byte>): Result<(seq<byte>, seq<byte>)> {
    if |wire| < 2 then Overflow
    else
      var len := FromBigEndian(wire[..2]);
      if |wire| < 2 + len then Overflow else Ok((wire[2..2 + len], wire[2 + len..]))
  }

  /** The bytes on the wire: the length, high byte first, and the string. */
  lemma StringBytes(s: seq<byte>)
    ensures var wire := EncodeString(s);
            && |wire| == 2 + |s| && wire[0] as nat == |s| / 256 % 256 && wire[1] as nat == |s| % 256 && wire[2..] == s
  {
    var head := BigEndian(2, |s|);
    BigEndianRoundTrip(2, |s|);
    Split2(head);
    assert Pow256(1) == 0x100 && Pow256(2) == 0x1_0000;
    assert EncodeString(s)[..2] == head;
  }

  /** A string survives the wire exactly when its length fits 16 bits. */
  lemma StringRoundTrip(s: seq<byte>, rest: seq<byte>)
    ensures DecodeString(EncodeString(s) + rest) == Ok((s, rest)) <==> |s| < 0x1_0000
  {
    var wire := EncodeString(s) + rest;
    BigEndianRoundTrip(2, |s|);
    assert Pow256(1) == 0x100 && Pow256(2) == 0x1_0000;
    assert wire[..2] == BigEndian(2, |s|);
    if |s| < 0x1_0000 {
      assert wire[2..2 + |s|] == s && wire[2 + |s|..] == rest;
    }
  }

  class IOBuffer {
    const m_Buffer: array<byte>
    const m_Start: nat               // where in the array the window begins
    const m_BufferSize: nat
    var m_ReadPosition: nat
    var m_AvailableReadSize: nat
    var m_WritePosition: nat

    ghost predicate Valid()
      reads this
    {
      && m_Start + m_BufferSize <= m_Buffer.Length
      && m_ReadPosition <= m_AvailableReadSize <= m_BufferSize <= SSIZE_MAX
      && m_WritePosition <= m_BufferSize
    }

    constructor (buffer: array<byte>, start: nat, size: nat, availableReadSize: nat)
      requires start + size <= buffer.Length && availableReadSize <= size <= SSIZE_MAX
      ensures Valid() && m_Buffer == buffer && m_Start == start && m_BufferSize == size
      ensures m_ReadPosition == 0 && m_AvailableReadSize == availableReadSize && m_WritePosition == 0
    {
      m_Buffer, m_Start, m_BufferSize := buffer, start, size;
      m_ReadPosition, m_AvailableReadSize, m_WritePosition := 0, availableReadSize, 0;
    }

    /** What is left to read. */
    ghost function Unread(): seq<byte>
      requires Valid()
      reads this, m_Buffer
    {
      m_Buffer[m_Start + m_ReadPosition..m_Start + m_AvailableReadSize]
    }

    /** What has been written. */
    ghost function Written(): seq<byte>
      requires Valid()
      reads this, m_Buffer
    {
      m_Buffer[m_Start..m_Start + m_WritePosition]
    }

    // ----- reading

    /** Copies out the next `size` bytes, or returns 0 and consumes nothing when fewer are left. */
    method Read(size: nat) returns (n: nat, data: seq<byte>)
      requires Valid()
      modifies `m_ReadPosition
      ensures Valid()
      ensures size <= old(|Unread()|) ==>
                n == size && old(Unread()) == data + Unread() && |data| == size
      ensures size > old(|Unread()|) ==> n == 0 && data == [] && Unread() == old(Unread())
    {
      if m_ReadPosition + size > m_AvailableReadSize {
        return 0, [];
      }
      data := m_Buffer[m_Start + m_ReadPosition..m_Start + m_ReadPosition + size];
      m_ReadPosition := m_ReadPosition + size;
      n := size;
    }

    /** operator >> for an unsigned integer of `width` bytes: loads it in host order and swaps. */
    method GetUInt(width: nat) returns (r: Result<nat>)
      requires Valid() && Width(width)
      modifies `m_ReadPosition
      ensures Valid()
      ensures r.Ok? <==> width <= old(|Unread()|)
      ensures r.Ok? ==> r.value == FromBigEndian(old(Unread())[..width]) && Unread() == old(Unread())[width..]
      ensures r.Ok? ==> m_ReadPosition == old(m_ReadPosition) + width
      ensures r.Overflow? ==> m_ReadPosition == old(m_ReadPosition)
    {
      hide Ntoh, FromLittleEndian, FromBigEndian;
      if m_ReadPosition + width > m_AvailableReadSize {
        return Overflow;
      }
      ghost var unread := Unread();
      var raw := m_Buffer[m_Start + m_ReadPosition..m_Start + m_ReadPosition + width];
      assert raw == unread[..width];
      SwapLoads(raw);
      r := Ok(Ntoh(width, FromLittleEndian(raw)));
      m_ReadPosition := m_ReadPosition + width;
      assert Unread() == unread[width..];
    }

    /** operator >> for a string: nothing is consumed unless length and bytes are all there. */
    method GetString() returns (r: Result<seq<byte>>)
      requires Valid()
      modifies `m_ReadPosition
      ensures Valid()
      ensures match DecodeString(old(Unread()))
              case Ok((s, rest)) => r == Ok(s) && Unread() == rest && m_ReadPosition == old(m_ReadPosition) + 2 + |s|
              case Overflow => r == Overflow && m_ReadPosition == old(m_ReadPosition)
    {
      hide Ntoh, FromLittleEndian, FromBigEndian;
      if m_ReadPosition + 2 > m_AvailableReadSize {
        return Overflow;
      }
      ghost var unread := Unread();
      var raw := m_Buffer[m_Start + m_ReadPosition..m_Start + m_ReadPosition + 2];
      assert raw == unread[..2];
      SwapLoads(raw);
      var len := Ntoh(2, FromLittleEndian(raw));
      if m_ReadPosition + 2 + len > m_AvailableReadSize {
        return Overflow;
      }
      m_ReadPosition := m_ReadPosition + 2;
      var val := m_Buffer[m_Start + m_ReadPosition..m_Start + m_ReadPosition + len];
      m_ReadPosition := m_ReadPosition + len;
      assert val == unread[2..2 + len] && Unread() == unread[2 + len..];
      r := Ok(val);
    }

    /** Moves the read position. The unsigned position wraps below zero, and whatever lies outside what is
        available ends up at its end. */
    method ReadSeek(offset: int)
      requires Valid() && -SSIZE_MAX <= offset <= SSIZE_MAX
      modifies `m_ReadPosition
      ensures Valid()
      ensures m_ReadPosition == (if 0 <= old(m_ReadPosition) + offset <= m_AvailableReadSize
                                 then old(m_ReadPosition) + offset else m_AvailableReadSize)
    {
      m_ReadPosition := (m_ReadPosition + offset) % SIZE_MODULUS;
      if m_ReadPosition > m_AvailableReadSize {
        m_ReadPosition := m_AvailableReadSize;
      }
    }

    // ----- writing

    /** Appends `data`, or returns 0 and writes nothing when it does not fit. */
    method Write(data: seq<byte>) returns (n: nat)
      requires Valid()
      modifies `m_WritePosition, m_Buffer
      ensures Valid()
      ensures n == (if old(m_WritePosition) + |data| <= m_BufferSize then |data| else 0)
      ensures n == |data| ==> Written() == old(Written()) + data
      ensures n < |data| ==> m_WritePosition == old(m_WritePosition) && m_Buffer[..] == old(m_Buffer[..])
      ensures OutsideKept(old(m_Buffer[..]), m_Start + old(m_WritePosition), m_Start + m_WritePosition)
    {
      if m_WritePosition + |data| > m_BufferSize {
        return 0;
      }
      Store(data);
      n := |data|;
    }

    ghost predicate OutsideKept(before: seq<byte>, from: nat, to: nat)
      reads m_Buffer
    {
      |before| == m_Buffer.Length && forall i :: 0 <= i < m_Buffer.Length && !(from <= i < to) ==>
          m_Buffer[i] == before[i]
    }

    method Store(data: seq<byte>)
      requires Valid() && m_WritePosition + |data| <= m_BufferSize
      modifies `m_WritePosition, m_Buffer
      ensures Valid() && m_WritePosition == old(m_WritePosition) + |data|
      ensures Written() == old(Written()) + data
      ensures OutsideKept(old(m_Buffer[..]), m_Start + old(m_WritePosition), m_Start + m_WritePosition)
    {
      var at := m_Start + m_WritePosition;
      forall i | 0 <= i < |data| {
        m_Buffer[at + i] := data[i];
      }
      m_WritePosition := m_WritePosition + |data|;
      assert m_Buffer[m_Start..at] == old(Written());
      assert m_Buffer[at..at + |data|] == data;
    }

    /** operator << for an unsigned integer: swaps it and stores it in host order. */
    method PutUInt(width: nat, value: nat) returns (r: Result<()>)
      requires Valid() && Width(width) && value < Pow256(width)
      modifies `m_WritePosition, m_Buffer
      ensures Valid()
      ensures r.Ok? <==> old(m_WritePosition) + width <= m_BufferSize
      ensures r.Ok? ==> Written() == old(Written()) + BigEndian(width, value)
      ensures r.Overflow? ==> m_WritePosition == old(m_WritePosition) && m_Buffer[..] == old(m_Buffer[..])
      ensures OutsideKept(old(m_Buffer[..]), m_Start + old(m_WritePosition), m_Start + m_WritePosition)
    {
      if m_WritePosition + width > m_BufferSize {
        return Overflow;
      }
      SwapStores(width, value);
      Store(LittleEndian(width, Ntoh(width, value)));
      r := Ok(());
    }

    /** operator << for a string. */
    method PutString(s: seq<byte>) returns (r: Result<()>)
      requires Valid()
      modifies `m_WritePosition, m_Buffer
      ensures Valid()
      ensures r.Ok? <==> old(m_WritePosition) + 2 + |s| <= m_BufferSize
      ensures r.Ok? ==> Written() == old(Written()) + EncodeString(s)
      ensures r.Overflow? ==> m_WritePosition == old(m_WritePosition) && m_Buffer[..] == old(m_Buffer[..])
      ensures OutsideKept(old(m_Buffer[..]), m_Start + old(m_WritePosition), m_Start + m_WritePosition)
    {
      hide Ntohs, BigEndian, LittleEndian;
      if m_WritePosition + 2 + |s| > m_BufferSize {
        return Overflow;
      }
      TruncatedLength(|s|);
      Store(LittleEndian(2, Ntohs(|s| % 0x1_0000)));
      Store(s);
      r := Ok(());
    }
  }

  lemma TruncatedLength(n: nat)
    ensures LittleEndian(2, Ntohs(n % 0x1_0000)) == BigEndian(2, n)
  {
    assert Pow256(1) == 0x100 && Pow256(2) == 0x1_0000;
    SwapStores(2, n % 0x1_0000);
    BigEndianRoundTrip(2, n);
    BigEndianRoundTrip(2, n % 0x1_0000);
    BigEndianInverse(BigEndian(2, n));
    BigEndianInverse(BigEndian(2, n % 0x1_0000));
  }
}

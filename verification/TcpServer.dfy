/** Reassembly of a TCP byte stream: the receive cache of a channel, the handler that consumes from its front,
    and the compaction of what is left. */
module TcpReceive {
  import opened Bytes
  import opened Codec

  /** The handler a server implements, in one event: any code at all, of which is known only how many bytes it has
      taken when it returns or throws, or one that takes every complete length-prefixed string and returns when the
      next one is incomplete. */
  datatype Handler = Arbitrary(take: nat, throws: bool) | Strings

  /** What a call of OnReadable comes to. */
  datatype Outcome = CacheFull | Closed | HandlerThrew | Handled

  /** The complete strings at the front of a stream, and the incomplete rest. */
  function Messages(wire: seq<byte>): seq<seq<byte>>
    decreases |wire|
  {
    match DecodeString(wire)
    case Overflow => []
    case Ok((s, rest)) => [s] + Messages(rest)
  }

  function Rest(wire: seq<byte>): seq<byte>
    decreases |wire|
  {
    match DecodeString(wire)
    case Overflow => wire
    case Ok((s, rest)) => Rest(rest)
  }

  /** A string that is complete stays so, and stays the same, when more bytes arrive. */
  lemma DecodeGrows(wire: seq<byte>, more: seq<byte>)
    requires DecodeString(wire).Ok?
    ensures var (s, rest) := DecodeString(wire).value;
            DecodeString(wire + more) == Ok((s, rest + more)) && |rest| < |wire|
  {
    var len := FromBigEndian(wire[..2]);
    assert (wire + more)[..2] == wire[..2];
    assert (wire + more)[2..2 + len] == wire[2..2 + len];
    assert (wire + more)[2 + len..] == wire[2 + len..] + more;
  }

  /** Decoding a stream in two pieces, keeping the rest of the first, is decoding it whole. */
  lemma {:induction false} DecodeInPieces(a: seq<byte>, b: seq<byte>)
    ensures Messages(a + b) == Messages(a) + Messages(Rest(a) + b)
    ensures Rest(a + b) == Rest(Rest(a) + b)
    decreases |a|
  {
    match DecodeString(a)
    case Overflow =>
    case Ok((s, rest)) =>
      DecodeGrows(a, b);
      DecodeInPieces(rest, b);
      assert [s] + (Messages(rest) + Messages(Rest(rest) + b)) == [s] + Messages(rest) + Messages(Rest(rest) + b);
  }

  /** What was sent as strings is what is received, once all of it is there. */
  lemma {:induction false} SentIsReceived(strings: seq<seq<byte>>)
    requires forall i :: 0 <= i < |strings| ==> |strings[i]| < 0x1_0000
    ensures Messages(Wire(strings)) == strings && Rest(Wire(strings)) == []
  {
    if strings != [] {
      StringRoundTrip(strings[0], Wire(strings[1..]));
      SentIsReceived(strings[1..]);
    }
  }

  function Wire(strings: seq<seq<byte>>): seq<byte> {
    if strings == [] then [] else EncodeString(strings[0]) + Wire(strings[1..])
  }

  /** What one decoding step makes of a stream behind the strings taken before. */
  lemma Decoded(wire: seq<byte>, before: seq<seq<byte>>)
    ensures match DecodeString(wire)
            case Overflow => Messages(wire) == [] && Rest(wire) == wire
            case Ok((s, rest)) =>
              && before + Messages(wire) == before + [s] + Messages(rest)
              && Rest(wire) == Rest(rest) && |rest| < |wire|
  {
    if DecodeString(wire).Ok? {
      DecodeGrows(wire, []);
      var (s, rest) := DecodeString(wire).value;
      assert Messages(wire) == [s] + Messages(rest);
    }
  }

  /** How many of the bytes received are consumed: none if the handler throws, otherwise those it took. */
  function Consumes(handler: Handler, wire: seq<byte>): (n: nat)
    ensures n <= |wire|
  {
    match handler
    case Arbitrary(take, throws) => if throws then 0 else if take <= |wire| then take else |wire|
    case Strings =>
      RestIsSuffix(wire);
      |wire| - |Rest(wire)|
  }

  lemma {:induction false} RestIsSuffix(wire: seq<byte>)
    ensures |Rest(wire)| <= |wire| && wire[|wire| - |Rest(wire)|..] == Rest(wire)
    decreases |wire|
  {
    match DecodeString(wire)
    case Overflow =>
    case Ok((s, rest)) =>
      RestIsSuffix(rest);
      assert wire[2 + |s|..] == rest;
  }

  lemma StringsConsume(wire: seq<byte>)
    ensures var n := Consumes(Strings, wire);
            wire[n..] == Rest(wire) && n == |wire| - |Rest(wire)|
  {
    hide Rest;
    RestIsSuffix(wire);
  }

  /** What a handler consumes: nothing if it throws, what it took if it returns, all but the rest if it decodes. */
  lemma ConsumesMeans(handler: Handler, wire: seq<byte>)
    ensures match handler
            case Arbitrary(take, throws) =>
              Consumes(handler, wire) == if throws then 0 else if take <= |wire| then take else |wire|
            case Strings => wire[Consumes(handler, wire)..] == Rest(wire)
  {
    hide Rest;
    if handler.Strings? {
      StringsConsume(wire);
    }
  }

  class Channel {
    const cPackageCache: array<byte>
    var dwCacheAvailableSize: nat

    ghost predicate Valid()
      reads this
    {
      dwCacheAvailableSize <= cPackageCache.Length <= SSIZE_MAX
    }

    /** The bytes received and not yet consumed. */
    ghost function Cache(): seq<byte>
      requires Valid()
      reads this, cPackageCache
    {
      cPackageCache[..dwCacheAvailableSize]
    }

    constructor (cacheSize: nat)
      requires cacheSize <= SSIZE_MAX
      ensures Valid() && Cache() == [] && cPackageCache.Length == cacheSize && fresh(cPackageCache)
    {
      cPackageCache := new byte[cacheSize];
      dwCacheAvailableSize := 0;
    }

    /** The handler: reads from the buffer, and returns or throws. */
    method OnMessage(handler: Handler, input: IOBuffer) returns (thrown: bool, messages: seq<seq<byte>>)
      requires input.Valid()
      modifies input`m_ReadPosition
      ensures input.Valid() && thrown == (handler.Arbitrary? && handler.throws)
      ensures !thrown ==> input.Unread() == old(input.Unread())[Consumes(handler, old(input.Unread()))..]
      ensures !thrown ==> input.m_ReadPosition == old(input.m_ReadPosition) + Consumes(handler, old(input.Unread()))
      ensures messages == if handler.Strings? then Messages(old(input.Unread())) else []
    {
      hide Messages, Rest;
      match handler
      case Arbitrary(take, throws) =>
        thrown, messages := throws, [];
        var left := input.m_AvailableReadSize - input.m_ReadPosition;
        input.m_ReadPosition := input.m_ReadPosition + (if take <= left then take else left);
      case Strings =>
        hide Consumes;
        StringsConsume(input.Unread());
        thrown := false;
        messages := TakeStrings(input);
    }

    /** A handler that decodes until a string is incomplete. */
    method TakeStrings(input: IOBuffer) returns (messages: seq<seq<byte>>)
      requires input.Valid()
      modifies input`m_ReadPosition
      ensures input.Valid()
      ensures messages == Messages(old(input.Unread())) && input.Unread() == Rest(old(input.Unread()))
    {
      hide Messages, Rest, DecodeString;
      messages := [];
      ghost var unread := input.Unread();
      var more := true;
      while more
        invariant input.Valid()
        invariant Messages(unread) == messages + Messages(input.Unread()) && Rest(unread) == Rest(input.Unread())
        invariant !more ==> Messages(input.Unread()) == [] && Rest(input.Unread()) == input.Unread()
        decreases |input.Unread()|, more
      {
        Decoded(input.Unread(), messages);
        var r := input.GetString();
        if r.Ok? {
          messages := messages + [r.value];
        } else {
          more := false;
        }
      }
    }

    /** One readable event. `chunk` is what the kernel hands over, at most as much as the cache has room for. */
    method OnReadable(handler: Handler, chunk: seq<byte>)
      returns (r: Outcome, messages: seq<seq<byte>>, ghost consumed: seq<byte>)
      requires Valid() && dwCacheAvailableSize + |chunk| <= cPackageCache.Length
      modifies this, cPackageCache
      ensures Valid()
      ensures r == CacheFull <==> old(|Cache()|) == cPackageCache.Length
      ensures r == Closed <==> old(|Cache()|) < cPackageCache.Length && chunk == []
      ensures r == HandlerThrew <==>
                old(|Cache()|) < cPackageCache.Length && chunk != [] && handler.Arbitrary? && handler.throws
      ensures old(Cache()) + chunk == consumed + Cache()
      ensures |consumed| == if r == CacheFull || r == Closed then 0 else Consumes(handler, old(Cache()) + chunk)
      ensures r == HandlerThrew ==> consumed == [] && Cache() == old(Cache()) + chunk
      ensures r == Handled && handler.Arbitrary? ==>
                |consumed| == if handler.take <= |old(Cache()) + chunk| then handler.take else |old(Cache()) + chunk|
      ensures r == Handled && handler.Strings? ==> Cache() == Rest(old(Cache()) + chunk)
      ensures messages == if r == Handled && handler.Strings? then Messages(old(Cache()) + chunk) else []
    {
      hide Messages, Rest, Consumes;
      messages, consumed := [], [];
      if cPackageCache.Length - dwCacheAvailableSize <= 0 {
        assert old(Cache()) + chunk == old(Cache());
        return CacheFull, [], [];
      }
      forall i | 0 <= i < |chunk| {
        cPackageCache[dwCacheAvailableSize + i] := chunk[i];
      }
      if |chunk| == 0 {
        assert old(Cache()) + chunk == old(Cache());
        return Closed, [], [];
      }
      dwCacheAvailableSize := dwCacheAvailableSize + |chunk|;
      ghost var received := Cache();
      assert received == old(Cache()) + chunk;
      r, messages, consumed := Handle(handler);
      ConsumesMeans(handler, received);
    }

    /** The handler reads the cache from its front, and what it has consumed is dropped. */
    method Handle(handler: Handler) returns (r: Outcome, messages: seq<seq<byte>>, ghost consumed: seq<byte>)
      requires Valid()
      modifies this, cPackageCache
      ensures Valid() && r == (if handler.Arbitrary? && handler.throws then HandlerThrew else Handled)
      ensures old(Cache()) == consumed + Cache() && |consumed| == Consumes(handler, old(Cache()))
      ensures messages == if handler.Strings? then Messages(old(Cache())) else []
    {
      hide Messages, Rest;
      var input := new IOBuffer(cPackageCache, 0, dwCacheAvailableSize, dwCacheAvailableSize);
      ghost var received := Cache();
      assert received == input.Unread();
      var thrown;
      thrown, messages := OnMessage(handler, input);
      if thrown {
        return HandlerThrew, messages, [];
      }
      var pos := input.m_ReadPosition;
      consumed := received[..pos];
      Compact(pos);
      r := Handled;
    }

    /** Drops the first pos bytes of the cache and moves the rest to its front. */
    method Compact(pos: nat)
      requires Valid() && pos <= dwCacheAvailableSize
      modifies this, cPackageCache
      ensures Valid() && Cache() == old(Cache())[pos..]
    {
      dwCacheAvailableSize := dwCacheAvailableSize - pos;
      if pos > 0 && dwCacheAvailableSize > 0 {
        forall i | 0 <= i < dwCacheAvailableSize {
          cPackageCache[i] := cPackageCache[pos + i];
        }
      }
    }
  }

  // ----- any chunking

  /** A connection: the bytes its handlers have consumed, and those in its cache. */
  datatype Line = Line(consumed: seq<byte>, cache: seq<byte>)

  /** One event: a chunk arrives behind the cache, and the handler consumes from its front. */
  function Arrive(line: Line, handler: Handler, chunk: seq<byte>): Line {
    var wire := line.cache + chunk;
    var n := Consumes(handler, wire);
    Line(line.consumed + wire[..n], wire[n..])
  }

  /** The connection after these chunks, each met by its handler. */
  function Served(handlers: seq<Handler>, chunks: seq<seq<byte>>): Line
    requires |chunks| <= |handlers|
  {
    if chunks == [] then Line([], [])
    else
      var n := |chunks| - 1;
      Arrive(Served(handlers, chunks[..n]), handlers[n], chunks[n])
  }

  function Joined(chunks: seq<seq<byte>>): seq<byte> {
    if chunks == [] then [] else Joined(chunks[..|chunks| - 1]) + chunks[|chunks| - 1]
  }

  /** Whatever the chunks and the handlers: no byte is lost, repeated or reordered. */
  lemma {:induction false} NothingLost(handlers: seq<Handler>, chunks: seq<seq<byte>>)
    requires |chunks| <= |handlers|
    ensures Joined(chunks) == Served(handlers, chunks).consumed + Served(handlers, chunks).cache
  {
    if chunks != [] {
      var n := |chunks| - 1;
      NothingLost(handlers, chunks[..n]);
      var line := Served(handlers, chunks[..n]);
      var wire := line.cache + chunks[n];
      assert line.consumed + line.cache + chunks[n] == line.consumed + wire;
      assert wire == wire[..Consumes(handlers[n], wire)] + wire[Consumes(handlers[n], wire)..];
    }
  }

  /** An event whose handler throws changes nothing for the handlers after it: its chunk might as well have come
      joined to the next one. */
  lemma {:induction false} ThrowJoins(handlers: seq<Handler>, chunks: seq<seq<byte>>, i: nat)
    requires |chunks| <= |handlers| && i + 1 < |chunks| && handlers[i].Arbitrary? && handlers[i].throws
    ensures Served(handlers, chunks)
         == Served(handlers[..i] + handlers[i + 1..], chunks[..i] + [chunks[i] + chunks[i + 1]] + chunks[i + 2..])
    decreases |chunks|
  {
    hide Consumes, Arrive, Served;
    var n := |chunks| - 1;
    var fewer, joined := handlers[..i] + handlers[i + 1..], chunks[..i] + [chunks[i] + chunks[i + 1]] + chunks[i + 2..];
    LastServed(handlers, chunks);
    LastServed(fewer, joined);
    if i + 1 == n {
      LastServed(handlers, chunks[..n]);
      assert chunks[..n][..i] == chunks[..i] == joined[..i];
      SameHandlers(handlers, fewer, chunks[..i]);
      ThrowArrives(Served(handlers, chunks[..i]), handlers[i], handlers[n], chunks[i], chunks[n]);
    } else {
      ThrowJoins(handlers, chunks[..n], i);
      assert joined[..n - 1]
          == chunks[..n][..i] + [chunks[..n][i] + chunks[..n][i + 1]] + chunks[..n][i + 2..];
    }
  }

  lemma LastServed(handlers: seq<Handler>, chunks: seq<seq<byte>>)
    requires |chunks| <= |handlers| && chunks != []
    ensures var n := |chunks| - 1;
            Served(handlers, chunks) == Arrive(Served(handlers, chunks[..n]), handlers[n], chunks[n])
  {
  }

  lemma {:induction false} SameHandlers(handlers: seq<Handler>, others: seq<Handler>, chunks: seq<seq<byte>>)
    requires |chunks| <= |handlers| && |chunks| <= |others| && handlers[..|chunks|] == others[..|chunks|]
    ensures Served(handlers, chunks) == Served(others, chunks)
  {
    hide Arrive;
    if chunks != [] {
      var n := |chunks| - 1;
      assert handlers[..|chunks|][n] == others[..|chunks|][n];
      assert handlers[..n] == handlers[..|chunks|][..n] == others[..|chunks|][..n] == others[..n];
      SameHandlers(handlers, others, chunks[..n]);
    }
  }

  lemma ThrowArrives(line: Line, throwing: Handler, handler: Handler, a: seq<byte>, b: seq<byte>)
    requires throwing.Arbitrary? && throwing.throws
    ensures Arrive(Arrive(line, throwing, a), handler, b) == Arrive(line, handler, a + b)
  {
    hide Consumes;
    ConsumesMeans(throwing, line.cache + a);
    assert line.consumed + (line.cache + a)[..0] == line.consumed;
    assert line.cache + a + b == line.cache + (a + b);
  }

  predicate AllStrings(handlers: seq<Handler>) {
    forall i :: 0 <= i < |handlers| ==> handlers[i].Strings?
  }

  /** In every event the cache had room for the chunk. */
  predicate Roomy(size: nat, handlers: seq<Handler>, chunks: seq<seq<byte>>)
    requires |chunks| <= |handlers|
  {
    forall i :: 0 <= i < |chunks| ==> |Served(handlers, chunks[..i]).cache| + |chunks[i]| <= size
  }

  lemma StillRoomy(size: nat, handlers: seq<Handler>, chunks: seq<seq<byte>>, chunk: seq<byte>)
    requires |chunks| < |handlers| && Roomy(size, handlers, chunks)
    requires |Served(handlers, chunks).cache| + |chunk| <= size
    ensures Roomy(size, handlers, chunks + [chunk])
  {
    hide Served;
    forall i | 0 <= i < |chunks + [chunk]|
      ensures |Served(handlers, (chunks + [chunk])[..i]).cache| + |(chunks + [chunk])[i]| <= size
    {
      assert (chunks + [chunk])[..i] == chunks[..i];
      assert chunks[..|chunks|] == chunks;
    }
  }

  /** A connection over one event for each of `handlers`: the kernel cuts the stream into chunks as it likes, as long
      as they fit the cache. What the handlers have consumed, what is in the cache and what is still to come are the
      stream; a server of strings has handled exactly the strings completed so far, however the stream was cut. The
      run ends early only when the stream does or the cache is full. */
  method ServeStream(channel: Channel, handlers: seq<Handler>, stream: seq<byte>)
    returns (handled: seq<seq<byte>>, ghost consumed: seq<byte>, ghost chunks: seq<seq<byte>>, left: seq<byte>)
    requires channel.Valid() && channel.Cache() == []
    modifies channel, channel.cPackageCache
    ensures channel.Valid() && |chunks| <= |handlers|
    ensures stream == Joined(chunks) + left && stream == consumed + channel.Cache() + left
    ensures Line(consumed, channel.Cache()) == Served(handlers, chunks)
    ensures left == [] || |channel.Cache()| == channel.cPackageCache.Length
            || |chunks| == |handlers| <= |stream| - |left|
    ensures AllStrings(handlers) ==> handled == Messages(Joined(chunks)) && channel.Cache() == Rest(Joined(chunks))
    ensures Roomy(channel.cPackageCache.Length, handlers, chunks)
  {
    hide Messages, Rest, Consumes, Served, Joined, AllStrings, Roomy, Faithful;
    handled, consumed, chunks, left := [], [], [], stream;
    ghost var size := channel.cPackageCache.Length;
    FaithfulYet(size, handlers, stream);
    var i := 0;
    while i < |handlers| && left != [] && channel.dwCacheAvailableSize < channel.cPackageCache.Length
      invariant channel.Valid() && |chunks| == i <= |handlers|
      invariant Faithful(size, stream, handlers, chunks, left, handled, Line(consumed, channel.Cache()))
    {
      var n :| 0 < n <= channel.cPackageCache.Length - channel.dwCacheAvailableSize && n <= |left|;
      ghost var line := Line(consumed, channel.Cache());
      var r, messages, now := channel.OnReadable(handlers[i], left[..n]);
      StillFaithful(size, stream, handlers, chunks, left, handled, line, n, messages, now, channel.Cache());
      handled, consumed, chunks, left := handled + messages, consumed + now, chunks + [left[..n]], left[n..];
      i := i + 1;
    }
    FaithfulMeans(size, stream, handlers, chunks, left, handled, Line(consumed, channel.Cache()));
  }

  /** The state of a run after these chunks. */
  predicate Faithful(size: nat, stream: seq<byte>, handlers: seq<Handler>, chunks: seq<seq<byte>>, left: seq<byte>,
                     handled: seq<seq<byte>>, line: Line)
    requires |chunks| <= |handlers|
  {
    && stream == Joined(chunks) + left && |chunks| <= |stream| - |left|
    && line == Served(handlers, chunks) && Roomy(size, handlers, chunks)
    && (AllStrings(handlers) ==> handled == Messages(Joined(chunks)) && line.cache == Rest(Joined(chunks)))
  }

  lemma FaithfulYet(size: nat, handlers: seq<Handler>, stream: seq<byte>)
    ensures Faithful(size, stream, handlers, [], stream, [], Line([], []))
  {
    hide Messages, Rest, Served, Joined;
    NothingYet(handlers);
  }

  lemma FaithfulMeans(size: nat, stream: seq<byte>, handlers: seq<Handler>, chunks: seq<seq<byte>>, left: seq<byte>,
                      handled: seq<seq<byte>>, line: Line)
    requires |chunks| <= |handlers| && Faithful(size, stream, handlers, chunks, left, handled, line)
    ensures stream == Joined(chunks) + left == line.consumed + line.cache + left && |chunks| <= |stream| - |left|
    ensures line == Served(handlers, chunks) && Roomy(size, handlers, chunks)
    ensures AllStrings(handlers) ==> handled == Messages(Joined(chunks)) && line.cache == Rest(Joined(chunks))
  {
    hide Messages, Rest, Served, Joined, Roomy;
    NothingLost(handlers, chunks);
  }

  lemma StillFaithful(size: nat, stream: seq<byte>, handlers: seq<Handler>, chunks: seq<seq<byte>>, left: seq<byte>,
                      handled: seq<seq<byte>>, line: Line, n: nat, messages: seq<seq<byte>>, now: seq<byte>,
                      after: seq<byte>)
    requires |chunks| < |handlers| && Faithful(size, stream, handlers, chunks, left, handled, line)
    requires 0 < n <= |left| && |line.cache| + n <= size
    requires line.cache + left[..n] == now + after && |now| == Consumes(handlers[|chunks|], line.cache + left[..n])
    requires handlers[|chunks|].Strings? ==> messages == Messages(line.cache + left[..n])
    ensures Faithful(size, stream, handlers, chunks + [left[..n]], left[n..], handled + messages,
                     Line(line.consumed + now, after))
  {
    hide Messages, Rest, Consumes, Served, Joined, AllStrings, Roomy;
    Arrives(handlers, chunks, left[..n], line.consumed, line.cache, now, after);
    DecodeInPieces(Joined(chunks), left[..n]);
    StillRoomy(size, handlers, chunks, left[..n]);
    assert left == left[..n] + left[n..];
    assert Joined(chunks) + left == Joined(chunks) + left[..n] + left[n..];
  }

  lemma NothingYet(handlers: seq<Handler>)
    ensures Messages([]) == [] && Rest([]) == [] && Joined([]) == [] && Served(handlers, []) == Line([], [])
  {
  }

  lemma OneMoreChunk(handlers: seq<Handler>, chunks: seq<seq<byte>>, chunk: seq<byte>)
    requires |chunks| < |handlers|
    ensures Served(handlers, chunks + [chunk]) == Arrive(Served(handlers, chunks), handlers[|chunks|], chunk)
    ensures Joined(chunks + [chunk]) == Joined(chunks) + chunk
  {
    hide Arrive;
    assert (chunks + [chunk])[..|chunks|] == chunks;
  }

  lemma ArriveIs(line: Line, handler: Handler, chunk: seq<byte>, now: seq<byte>, after: seq<byte>)
    requires line.cache + chunk == now + after && |now| == Consumes(handler, line.cache + chunk)
    ensures Arrive(line, handler, chunk) == Line(line.consumed + now, after)
    ensures handler.Strings? ==> after == Rest(line.cache + chunk)
  {
    hide Rest, Consumes;
    var wire := line.cache + chunk;
    assert wire[..|now|] == now && wire[|now|..] == after;
    StringsConsume(wire);
  }

  /** One more event. */
  lemma Arrives(handlers: seq<Handler>, chunks: seq<seq<byte>>, chunk: seq<byte>, consumed: seq<byte>,
                cache: seq<byte>, now: seq<byte>, after: seq<byte>)
    requires |chunks| < |handlers| && Line(consumed, cache) == Served(handlers, chunks)
    requires cache + chunk == now + after && |now| == Consumes(handlers[|chunks|], cache + chunk)
    ensures Served(handlers, chunks + [chunk]) == Line(consumed + now, after)
    ensures Joined(chunks + [chunk]) == Joined(chunks) + chunk
    ensures AllStrings(handlers) ==> handlers[|chunks|].Strings? && after == Rest(cache + chunk)
  {
    hide Rest, Consumes, Served, Joined, Arrive;
    OneMoreChunk(handlers, chunks, chunk);
    ArriveIs(Served(handlers, chunks), handlers[|chunks|], chunk, now, after);
  }

  // ----- when the cache fills

  predicate Encodable(strings: seq<seq<byte>>) {
    forall i :: 0 <= i < |strings| ==> |strings[i]| < 0x1_0000
  }

  predicate AllFit(size: nat, strings: seq<seq<byte>>) {
    forall i :: 0 <= i < |strings| ==> 2 + |strings[i]| <= size
  }

  /** What is left of a stream of strings cut after k bytes: all of it while the first is incomplete. */
  lemma CutRest(strings: seq<seq<byte>>, k: nat)
    requires Encodable(strings) && strings != [] && k <= |Wire(strings)|
    ensures var n := 2 + |strings[0]|;
            && |Wire(strings)| == n + |Wire(strings[1..])|
            && Rest(Wire(strings)[..k]) == if k < n then Wire(strings)[..k] else Rest(Wire(strings[1..])[..k - n])
  {
    hide Wire, Rest, EncodeString, DecodeString;
    var s, tail := strings[0], Wire(strings[1..]);
    FirstOfWire(strings);
    var n := |EncodeString(s)|;
    if k < n {
      assert (EncodeString(s) + tail)[..k] == EncodeString(s)[..k];
      Incomplete(s, k);
      RestOf(Wire(strings)[..k]);
    } else {
      assert (EncodeString(s) + tail)[..k] == EncodeString(s) + tail[..k - n];
      StringRoundTrip(s, tail[..k - n]);
      RestOf(Wire(strings)[..k]);
    }
  }

  lemma FirstOfWire(strings: seq<seq<byte>>)
    requires strings != []
    ensures Wire(strings) == EncodeString(strings[0]) + Wire(strings[1..])
            && |EncodeString(strings[0])| == 2 + |strings[0]|
  {
  }

  lemma RestOf(wire: seq<byte>)
    ensures Rest(wire) == match DecodeString(wire) case Overflow => wire case Ok((s, rest)) => Rest(rest)
  {
  }

  lemma Incomplete(s: seq<byte>, k: nat)
    requires |s| < 0x1_0000 && k < |EncodeString(s)|
    ensures DecodeString(EncodeString(s)[..k]) == Overflow
  {
    var part := EncodeString(s)[..k];
    if 2 <= k {
      BigEndianRoundTrip(2, |s|);
      assert part[..2] == BigEndian(2, |s|);
      assert Pow256(1) == 0x100 && Pow256(2) == 0x1_0000;
    }
  }

  /** If every string fits the cache, what is left at any cut is smaller than the cache. */
  lemma {:induction false} LeftIsSmall(strings: seq<seq<byte>>, k: nat, size: nat)
    requires Encodable(strings) && AllFit(size, strings) && k <= |Wire(strings)| && 0 < size
    ensures |Rest(Wire(strings)[..k])| < size
    decreases |strings|
  {
    hide Rest, EncodeString;
    if strings != [] {
      CutRest(strings, k);
      if 2 + |strings[0]| <= k {
        LeftIsSmall(strings[1..], k - 2 - |strings[0]|, size);
      }
    } else {
      assert Wire(strings)[..k] == [];
      NothingYet([]);
    }
  }

  /** Until string i is complete, only strings before it are consumed. */
  lemma {:induction false} ConsumedBefore(strings: seq<seq<byte>>, i: nat, k: nat)
    requires Encodable(strings) && i < |strings| && k <= |Wire(strings)| && k < |Wire(strings[..i + 1])|
    ensures |Wire(strings[..i + 1])| == |Wire(strings[..i])| + 2 + |strings[i]|
    ensures k - |Rest(Wire(strings)[..k])| <= |Wire(strings[..i])|
    decreases |strings|
  {
    hide Rest, EncodeString, Wire;
    CutRest(strings, k);
    FirstOfWire(strings[..i + 1]);
    assert strings[..i + 1][1..] == strings[1..][..i];
    if i == 0 {
      assert strings[1..][..0] == [] == strings[..0];
      EmptyWire();
    } else {
      FirstOfWire(strings[..i]);
      assert strings[..i][1..] == strings[1..][..i - 1];
      FrontOfWire(strings[1..], i - 1);
      assert strings[1..][..i - 1 + 1] == strings[1..][..i];
      ConsumedBefore(strings[1..], i - 1, if 2 + |strings[0]| <= k then k - 2 - |strings[0]| else 0);
    }
  }

  lemma EmptyWire()
    ensures Wire([]) == []
  {
  }

  lemma {:induction false} CacheIsRest(handlers: seq<Handler>, chunks: seq<seq<byte>>)
    requires |chunks| <= |handlers| && AllStrings(handlers)
    ensures Served(handlers, chunks).cache == Rest(Joined(chunks))
  {
    hide Rest, Messages, Consumes;
    if chunks != [] {
      var n := |chunks| - 1;
      CacheIsRest(handlers, chunks[..n]);
      DecodeInPieces(Joined(chunks[..n]), chunks[n]);
      StringsConsume(Served(handlers, chunks[..n]).cache + chunks[n]);
    } else {
      NothingYet(handlers);
    }
  }

  /** A string that does not fit the cache is never complete. */
  lemma {:induction false} NeverComplete(handlers: seq<Handler>, chunks: seq<seq<byte>>, strings: seq<seq<byte>>,
      i: nat, size: nat)
    requires |chunks| <= |handlers| && AllStrings(handlers) && Roomy(size, handlers, chunks)
    requires Encodable(strings) && i < |strings| && size < 2 + |strings[i]|
    requires Joined(chunks) <= Wire(strings)
    ensures |Joined(chunks)| < |Wire(strings[..i + 1])|
    decreases |chunks|
  {
    hide Rest, Wire, Served, Encodable, AllStrings;
    FrontOfWire(strings, i);
    if chunks != [] {
      var n := |chunks| - 1;
      var earlier := chunks[..n];
      RoomyBefore(size, handlers, chunks);
      assert Joined(earlier) <= Joined(chunks);
      NeverComplete(handlers, earlier, strings, i, size);
      CacheIsRest(handlers, earlier);
      assert Joined(earlier) == Wire(strings)[..|Joined(earlier)|];
      ConsumedBefore(strings, i, |Joined(earlier)|);
    }
  }

  lemma FrontOfWire(strings: seq<seq<byte>>, i: nat)
    requires i < |strings|
    ensures 0 < |Wire(strings[..i + 1])|
  {
    hide Wire, EncodeString;
    FirstOfWire(strings[..i + 1]);
  }

  lemma RoomyBefore(size: nat, handlers: seq<Handler>, chunks: seq<seq<byte>>)
    requires |chunks| <= |handlers| && chunks != [] && Roomy(size, handlers, chunks)
    ensures Roomy(size, handlers, chunks[..|chunks| - 1])
  {
    hide Served;
    var n := |chunks| - 1;
    forall i | 0 <= i < n
      ensures |Served(handlers, chunks[..n][..i]).cache| + |chunks[..n][i]| <= size
    {
      assert chunks[..n][..i] == chunks[..i];
    }
  }

  /** A server of strings, with at least as many events as there are bytes: the whole stream is served, and every
      string handled, exactly if every encoded string fits the cache; otherwise the cache fills. */
  method ServeStrings(channel: Channel, handlers: seq<Handler>, strings: seq<seq<byte>>)
    returns (handled: seq<seq<byte>>, ghost chunks: seq<seq<byte>>, left: seq<byte>)
    requires channel.Valid() && channel.Cache() == [] && 0 < channel.cPackageCache.Length
    requires AllStrings(handlers) && Encodable(strings) && |Wire(strings)| <= |handlers|
    modifies channel, channel.cPackageCache
    ensures channel.Valid() && |chunks| <= |handlers| && Wire(strings) == Joined(chunks) + left
    ensures handled == Messages(Joined(chunks)) && channel.Cache() == Served(handlers, chunks).cache
    ensures left == [] <==> AllFit(channel.cPackageCache.Length, strings)
    ensures left == [] ==> handled == strings && channel.Cache() == []
    ensures left != [] ==> |channel.Cache()| == channel.cPackageCache.Length
  {
    hide Rest, Messages, Wire, Served, Joined, AllStrings, Roomy, Encodable;
    ghost var stream, consumed := Wire(strings), [];
    handled, consumed, chunks, left := ServeStream(channel, handlers, Wire(strings));
    ghost var size := channel.cPackageCache.Length;
    assert Joined(chunks) == stream[..|Joined(chunks)|];
    if AllFit(size, strings) {
      LeftIsSmall(strings, |Joined(chunks)|, size);
    } else {
      ghost var i :| 0 <= i < |strings| && size < 2 + |strings[i]|;
      NeverComplete(handlers, chunks, strings, i, size);
      PrefixOfWire(strings, i + 1);
    }
    if left == [] {
      assert Joined(chunks) == stream;
      Sent(strings);
    }
  }

  lemma Sent(strings: seq<seq<byte>>)
    requires Encodable(strings)
    ensures Messages(Wire(strings)) == strings && Rest(Wire(strings)) == []
  {
    SentIsReceived(strings);
  }

  lemma {:induction false} PrefixOfWire(strings: seq<seq<byte>>, i: nat)
    requires i <= |strings|
    ensures |Wire(strings[..i])| <= |Wire(strings)|
    decreases i
  {
    hide EncodeString;
    if 0 < i {
      FirstOfWire(strings[..i]);
      FirstOfWire(strings);
      assert strings[..i][1..] == strings[1..][..i - 1];
      PrefixOfWire(strings[1..], i - 1);
    }
  }
}

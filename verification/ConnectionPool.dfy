/** Ownership in the connection pool. The pool keeps its idle connections in one list per address and gives each
    of them a timer; the timers are those of module TimerSpec, so what is proved of the timing wheel holds of
    them. */
module ConnectionPooling {
  import opened TimerSpec

  class ConnectionInfo {
    const stAddress: nat
    var IdleConnTimerId: nat
    var Active: bool            // CONNECTIONINFO_FLAGS_ACTIVE of dwFlags

    constructor (address: nat)
      ensures stAddress == address && !Active
    {
      stAddress, IdleConnTimerId, Active := address, 0, false;
    }
  }

  /** An unsigned timeout passed as a signed one. */
  function AsInt(timeout: nat): int {
    if timeout < 0x8000_0000 then timeout else timeout - 0x1_0000_0000
  }

  /** Among finitely many deadlines one is earliest. */
  lemma {:induction false} Earliest(pending: map<nat, nat>, ids: set<nat>) returns (least: nat)
    requires ids != {} && ids <= pending.Keys
    ensures least in ids && forall j :: j in ids ==> pending[least] <= pending[j]
    decreases |ids|
  {
    least :| least in ids;
    if ids != {least} {
      var k := Earliest(pending, ids - {least});
      if pending[k] < pending[least] {
        least := k;
      }
    }
  }

  /** The connections of a list that are still there, in order. */
  function Surviving(list: seq<ConnectionInfo>, live: set<ConnectionInfo>): seq<ConnectionInfo> {
    if list == [] then []
    else (if list[0] in live then [list[0]] else []) + Surviving(list[1..], live)
  }

  /** Every address keeps its list, without the connections that are gone. */
  ghost predicate ListsSurvive(was: map<nat, seq<ConnectionInfo>>, now: map<nat, seq<ConnectionInfo>>,
                               live: set<ConnectionInfo>) {
    now.Keys == was.Keys && forall a :: a in was ==> now[a] == Surviving(was[a], live)
  }

  lemma {:induction false} SurvivingAll(list: seq<ConnectionInfo>, live: set<ConnectionInfo>)
    requires forall c :: c in list ==> c in live
    ensures Surviving(list, live) == list
  {
    if list != [] {
      SurvivingAll(list[1..], live);
      assert list == [list[0]] + list[1..];
    }
  }

  lemma {:induction false} SurvivingWithout(list: seq<ConnectionInfo>, i: nat, live: set<ConnectionInfo>)
    requires i < |list| && forall c :: c in list ==> c in live
    requires forall j, k :: 0 <= j < k < |list| ==> list[j] != list[k]
    ensures Surviving(list, live - {list[i]}) == list[..i] + list[i + 1..]
    decreases i
  {
    var left := live - {list[i]};
    if i == 0 {
      SurvivingAll(list[1..], left);
    } else {
      SurvivingWithout(list[1..], i - 1, live);
      assert list[..i] == [list[0]] + list[1..][..i - 1] && list[i + 1..] == list[1..][i..];
    }
  }

  lemma {:induction false} SurvivingTwice(list: seq<ConnectionInfo>, most: set<ConnectionInfo>,
      few: set<ConnectionInfo>)
    requires few <= most
    ensures Surviving(Surviving(list, most), few) == Surviving(list, few)
  {
    if list != [] {
      SurvivingTwice(list[1..], most, few);
      if list[0] in most {
        assert Surviving(list, most)[1..] == Surviving(list[1..], most);
      } else {
        assert Surviving(list, most) == Surviving(list[1..], most);
      }
    }
  }

  lemma ListsSurviveTwice(was: map<nat, seq<ConnectionInfo>>, between: map<nat, seq<ConnectionInfo>>,
                          now: map<nat, seq<ConnectionInfo>>, most: set<ConnectionInfo>, few: set<ConnectionInfo>)
    requires ListsSurvive(was, between, most) && ListsSurvive(between, now, few) && few <= most
    ensures ListsSurvive(was, now, few)
  {
    forall a | a in was
      ensures now[a] == Surviving(was[a], few)
    {
      SurvivingTwice(was[a], most, few);
    }
  }

  class ConnectionPool {
    var m_ConnectionCount: nat
    var m_MaxConnection: nat
    var m_IdleConnectionTimeout: nat
    var m_stConnectionMap: map<nat, seq<ConnectionInfo>>

    var timer: Flat                          // the timers of the pool
    var timerData: map<nat, ConnectionInfo>  // and the connection each one carries

    ghost var live: set<ConnectionInfo>      // allocated and not deleted

    /** An idle connection: in the list of its address, carried by the live timer whose id it keeps. */
    ghost predicate IdleOk(c: ConnectionInfo)
      reads `m_stConnectionMap, `timerData, c
    {
      && c.stAddress in m_stConnectionMap && c in m_stConnectionMap[c.stAddress]
      && c.IdleConnTimerId in timerData && timerData[c.IdleConnTimerId] == c
    }

    /** The lists hold live idle connections of their address, each once. */
    ghost predicate ListOk(a: nat)
      reads `m_stConnectionMap, `live, live
    {
      a in m_stConnectionMap ==>
        var list := m_stConnectionMap[a];
        && (forall c :: c in list ==> c in live && !c.Active && c.stAddress == a)
        && forall i, j :: 0 <= i < j < |list| ==> list[i] != list[j]
    }

    /** A live timer carries the live idle connection that keeps its id. */
    ghost predicate TimerOk(id: nat)
      reads `timerData, `live, live
    {
      id in timerData ==> timerData[id] in live && !timerData[id].Active && timerData[id].IdleConnTimerId == id
    }

    ghost predicate Valid()
      reads this, live
    {
      Books() && TimerSpec.Valid(timer)
    }

    ghost predicate Books()
      reads this, live
    {
      && m_ConnectionCount == |live| && 0 < m_IdleConnectionTimeout
      && timerData.Keys == timer.pending.Keys
      && (forall c :: c in live && !c.Active ==> IdleOk(c))
      && (forall a :: ListOk(a))
      && (forall id :: TimerOk(id))
    }

    /** The connections somebody holds. */
    ghost function Held(): set<ConnectionInfo>
      reads this, live
    {
      set c | c in live && c.Active
    }

    constructor (maxConn: nat, idleTimeout: nat, interval: Interval, now: nat)
      requires 0 < idleTimeout
      ensures Valid() && live == {} && m_MaxConnection == maxConn
    {
      m_ConnectionCount, m_MaxConnection, m_IdleConnectionTimeout := 0, maxConn, idleTimeout;
      m_stConnectionMap, timerData, live := map[], map[], {};
      timer := Flat(interval, now, 0, map[]);
    }

    /** A held connection is in no list and has no live timer. */
    lemma HeldIsApart(c: ConnectionInfo)
      requires Valid() && c in Held()
      ensures forall a :: a in m_stConnectionMap ==> c !in m_stConnectionMap[a]
      ensures forall id :: id in timerData ==> timerData[id] != c
    {
      forall a | a in m_stConnectionMap
        ensures c !in m_stConnectionMap[a]
      {
        assert ListOk(a);
      }
      forall id | id in timerData
        ensures timerData[id] != c
      {
        assert TimerOk(id);
      }
    }

    /** An idle connection is in the list of its address only, and exactly one live timer carries it. */
    lemma IdleIsOnce(c: ConnectionInfo)
      requires Valid() && c in live && !c.Active
      ensures forall a :: a in m_stConnectionMap && c in m_stConnectionMap[a] <==> a == c.stAddress
      ensures forall id :: id in timerData && timerData[id] == c <==> id == c.IdleConnTimerId
    {
      assert IdleOk(c);
      forall a | a in m_stConnectionMap && c in m_stConnectionMap[a]
        ensures a == c.stAddress
      {
        assert ListOk(a);
      }
      forall id | id in timerData && timerData[id] == c
        ensures id == c.IdleConnTimerId
      {
        assert TimerOk(id);
      }
    }

    method NewConnInfo(addr: nat) returns (pNewConnInfo: ConnectionInfo?)
      requires m_ConnectionCount == |live|
      modifies `m_ConnectionCount, `live
      ensures pNewConnInfo == null <==> old(m_ConnectionCount) >= m_MaxConnection
      ensures pNewConnInfo == null ==> live == old(live) && m_ConnectionCount == old(m_ConnectionCount)
      ensures pNewConnInfo != null ==>
                && fresh(pNewConnInfo) && pNewConnInfo.stAddress == addr && !pNewConnInfo.Active
                && live == old(live) + {pNewConnInfo} && m_ConnectionCount == |live|
    {
      if m_ConnectionCount >= m_MaxConnection {
        return null;
      }
      pNewConnInfo := new ConnectionInfo(addr);
      m_ConnectionCount := m_ConnectionCount + 1;
      live := live + {pNewConnInfo};
    }

    /** Hands out a connection to `addr`: the idle one put back last, or a new one. Nobody held it before. */
    method Attach(addr: nat) returns (r: int, client: ConnectionInfo?)
      requires Valid()
      modifies `m_ConnectionCount, `m_stConnectionMap, `timer, `timerData, `live, live`Active
      ensures Valid() && (r == 0 || r == -1) && (r == 0 <==> client != null)
      ensures var idle := old(if addr in m_stConnectionMap then m_stConnectionMap[addr] else []);
              && (r == -1 <==> idle == [] && old(m_ConnectionCount) >= m_MaxConnection)
              && (r == 0 ==> if idle != [] then client == idle[0] && live == old(live)
                             else fresh(client) && live == old(live) + {client})
      ensures r == -1 ==> live == old(live) && Held() == old(Held())
      ensures r == 0 ==> client.stAddress == addr && client !in old(Held()) && Held() == old(Held()) + {client}
      ensures if r == 0 && client in old(live) then TakenOff(client) else SameBooks()
    {
      r := 0;
      if addr !in m_stConnectionMap || m_stConnectionMap[addr] == [] {
        client := NewConnInfo(addr);
        if client == null {
          r := -1;
          KeepsValid();
          return;
        }
        client.Active := true;
        NewlyHeld(client);
      } else {
        client := TakeIdle(addr);
      }
    }

    /** The connection is the first of its list: that list loses it and its timer is cleared, and nothing else
        changes in the lists and the timers. */
    twostate predicate TakenOff(c: ConnectionInfo)
      reads this, c
    {
      && c.stAddress in old(m_stConnectionMap) && old(m_stConnectionMap)[c.stAddress] != []
      && c == old(m_stConnectionMap)[c.stAddress][0]
      && m_stConnectionMap == old(m_stConnectionMap)[c.stAddress := old(m_stConnectionMap)[c.stAddress][1..]]
      && timer == Apply(old(timer), Command.Clear(old(c.IdleConnTimerId)))
      && timerData == old(timerData) - {old(c.IdleConnTimerId)}
    }

    twostate predicate SameBooks()
      reads this
    {
      && m_stConnectionMap == old(m_stConnectionMap) && timer == old(timer) && timerData == old(timerData)
      && m_MaxConnection == old(m_MaxConnection) && m_IdleConnectionTimeout == old(m_IdleConnectionTimeout)
    }

    twostate lemma KeepsValid()
      requires old(Valid()) && SameBooks() && m_ConnectionCount == |live| && live == old(live)
      requires forall c :: c in live ==> c.Active == old(c.Active) && c.IdleConnTimerId == old(c.IdleConnTimerId)
      ensures Valid() && Held() == old(Held())
    {
      forall a
        ensures ListOk(a)
      {
        assert old(ListOk(a));
      }
      forall id
        ensures TimerOk(id)
      {
        assert old(TimerOk(id));
      }
      forall c | c in live && !c.Active
        ensures IdleOk(c)
      {
        assert old(IdleOk(c));
      }
    }

    twostate lemma NewlyHeld(new client: ConnectionInfo)
      requires old(Valid()) && SameBooks() && m_ConnectionCount == |live|
      requires client !in old(live) && live == old(live) + {client} && client.Active
      requires forall c :: c in old(live) ==> c.Active == old(c.Active) && c.IdleConnTimerId == old(c.IdleConnTimerId)
      ensures Valid() && Held() == old(Held()) + {client}
    {
      forall a
        ensures ListOk(a)
      {
        assert old(ListOk(a));
      }
      forall id
        ensures TimerOk(id)
      {
        assert old(TimerOk(id));
      }
      forall c | c in live && !c.Active
        ensures IdleOk(c)
      {
        assert old(IdleOk(c));
      }
    }

    /** The first idle connection of an address leaves its list and loses its timer. */
    method TakeIdle(addr: nat) returns (pConnInfo: ConnectionInfo)
      requires Valid() && addr in m_stConnectionMap && m_stConnectionMap[addr] != []
      modifies `m_stConnectionMap, `timer, `timerData, live`Active
      ensures Valid() && pConnInfo in live && pConnInfo == old(m_stConnectionMap[addr])[0] && TakenOff(pConnInfo)
      ensures pConnInfo.stAddress == addr && pConnInfo !in old(Held()) && Held() == old(Held()) + {pConnInfo}
    {
      assert ListOk(addr);
      var list := m_stConnectionMap[addr];
      pConnInfo := list[0];
      IdleIsOnce(pConnInfo);
      m_stConnectionMap := m_stConnectionMap[addr := list[1..]];
      timer := Apply(timer, Command.Clear(pConnInfo.IdleConnTimerId));
      timerData := timerData - {pConnInfo.IdleConnTimerId};
      pConnInfo.Active := true;
      Taken(pConnInfo);
    }

    twostate lemma Taken(c: ConnectionInfo)
      requires old(Valid()) && c in old(live) && !old(c.Active) && c.Active && live == old(live)
      requires m_ConnectionCount == old(m_ConnectionCount) && m_IdleConnectionTimeout == old(m_IdleConnectionTimeout)
      requires TakenOff(c)
      requires forall d :: d in live && d != c ==> d.Active == old(d.Active)
      requires forall d :: d in live ==> d.IdleConnTimerId == old(d.IdleConnTimerId)
      ensures Valid() && Held() == old(Held()) + {c}
    {
      assert old(IdleOk(c));
      forall a
        ensures ListOk(a)
      {
        assert old(ListOk(a));
      }
      forall id
        ensures TimerOk(id)
      {
        assert old(TimerOk(id));
      }
      forall d | d in live && !d.Active
        ensures IdleOk(d)
      {
        assert old(IdleOk(d));
      }
    }

    /** Puts a held connection back: it goes to the front of the list of its address, under a new timer. Of a
        connection nobody holds it does nothing. */
    method Detach(pConnInfo: ConnectionInfo, now: nat)
      requires Valid() && pConnInfo in live
      modifies `m_stConnectionMap, `timer, `timerData, pConnInfo
      ensures Valid() && Held() == old(Held()) - {pConnInfo}
      ensures !old(pConnInfo.Active) ==> SameBooks()
      ensures old(pConnInfo.Active) ==>
                && timer == Apply(old(timer), Command.SetTimeout(now, AsInt(m_IdleConnectionTimeout)))
                && timerData == old(timerData)[timer.lastId := pConnInfo]
                && timer.lastId in timer.pending && pConnInfo.IdleConnTimerId == timer.lastId
                && !pConnInfo.Active
                && SetFor(timer.interval, now, if m_IdleConnectionTimeout < 0x8000_0000 then m_IdleConnectionTimeout
                                               else m_IdleConnectionTimeout - 0x1_0000_0000,
                          timer.last, timer.pending[timer.lastId])
                && m_stConnectionMap == old(m_stConnectionMap)[pConnInfo.stAddress := [pConnInfo] + old(
                     if pConnInfo.stAddress in m_stConnectionMap then m_stConnectionMap[pConnInfo.stAddress] else [])]
    {
      hide SetFor;
      if !pConnInfo.Active {
        return;
      }
      HeldIsApart(pConnInfo);
      pConnInfo.Active := false;
      if m_IdleConnectionTimeout != 0 {
        SetForTimeout(timer.interval, now, AsInt(m_IdleConnectionTimeout), timer.last);
        timer := Apply(timer, Command.SetTimeout(now, AsInt(m_IdleConnectionTimeout)));
        pConnInfo.IdleConnTimerId := timer.lastId;
        timerData := timerData[timer.lastId := pConnInfo];
      }
      if pConnInfo.stAddress !in m_stConnectionMap {
        m_stConnectionMap := m_stConnectionMap[pConnInfo.stAddress := [pConnInfo]];
      } else {
        m_stConnectionMap := m_stConnectionMap[pConnInfo.stAddress := [pConnInfo]
            + m_stConnectionMap[pConnInfo.stAddress]];
      }
      assert [pConnInfo] + [] == [pConnInfo];
      PutBack((pConnInfo, now));
    }

    twostate lemma PutBack(p: (ConnectionInfo, nat))
      requires var (c, now) := p;
        && old(Valid()) && c in old(live) && old(c.Active) && !c.Active && live == old(live)
        && (forall a :: a in old(m_stConnectionMap) ==> c !in old(m_stConnectionMap)[a])
        && m_ConnectionCount == old(m_ConnectionCount) && m_IdleConnectionTimeout == old(m_IdleConnectionTimeout)
        && timer == Apply(old(timer), Command.SetTimeout(now, AsInt(m_IdleConnectionTimeout)))
        && c.IdleConnTimerId == timer.lastId && timerData == old(timerData)[timer.lastId := c]
        && m_stConnectionMap == old(m_stConnectionMap)[c.stAddress := [c] +
            (if c.stAddress in old(m_stConnectionMap) then old(m_stConnectionMap)[c.stAddress] else [])]
        && (forall d :: d in live && d != c ==>
           d.Active == old(d.Active) && d.IdleConnTimerId == old(d.IdleConnTimerId))
      ensures Valid() && Held() == old(Held()) - {p.0}
    {
      forall a
        ensures ListOk(a)
      {
        assert old(ListOk(a));
      }
      forall id
        ensures TimerOk(id)
      {
        assert old(TimerOk(id));
      }
      forall d | d in live && !d.Active
        ensures IdleOk(d)
      {
        assert d != p.0 ==> old(IdleOk(d));
      }
      CommandKeepsValid(old(timer), Command.SetTimeout(p.1, AsInt(m_IdleConnectionTimeout)));
    }

    /** Deletes a connection. The books stay right exactly when somebody held it: of an idle one the list and the
        timer keep a pointer. */
    method Erase(pConnInfo: ConnectionInfo)
      requires Valid() && pConnInfo in live
      modifies `live, `m_ConnectionCount
      ensures live == old(live) - {pConnInfo} && m_ConnectionCount == |live| && Held() == old(Held()) - {pConnInfo}
      ensures SameBooks() && (Valid() <==> pConnInfo.Active)
    {
      if pConnInfo.Active {
        HeldIsApart(pConnInfo);
      }
      live := live - {pConnInfo};
      m_ConnectionCount := m_ConnectionCount - 1;
      if pConnInfo.Active {
        Deleted(pConnInfo);
      } else {
        StillListed(pConnInfo);
      }
    }

    twostate lemma StillListed(c: ConnectionInfo)
      requires old(Valid()) && c in old(live) && c !in live && !c.Active && SameBooks()
      requires c.IdleConnTimerId == old(c.IdleConnTimerId) && !old(c.Active)
      ensures !Valid()
    {
      assert old(IdleOk(c));
      assert !TimerOk(c.IdleConnTimerId);
    }

    twostate lemma Deleted(c: ConnectionInfo)
      requires old(Valid()) && c in old(live) && live == old(live) - {c}
               && m_ConnectionCount == old(m_ConnectionCount) - 1
      requires SameBooks()
      requires forall a :: a in m_stConnectionMap ==> c !in m_stConnectionMap[a]
      requires forall id :: id in timerData ==> timerData[id] != c
      requires forall d :: d in live ==> d.Active == old(d.Active) && d.IdleConnTimerId == old(d.IdleConnTimerId)
      ensures Valid() && Held() == old(Held()) - {c}
    {
      forall a
        ensures ListOk(a)
      {
        assert old(ListOk(a));
      }
      forall id
        ensures TimerOk(id)
      {
        assert old(TimerOk(id));
      }
      forall d | d in live && !d.Active
        ensures IdleOk(d)
      {
        assert old(IdleOk(d));
      }
    }

    /** The books while the timer of pConnInfo fires: only that timer is already gone. */
    ghost predicate TimingOut(pConnInfo: ConnectionInfo)
      reads this, live
    {
      && m_ConnectionCount == |live| && 0 < m_IdleConnectionTimeout
      && timerData.Keys == timer.pending.Keys
      && pConnInfo in live && !pConnInfo.Active
      && pConnInfo.stAddress in m_stConnectionMap && pConnInfo in m_stConnectionMap[pConnInfo.stAddress]
      && (forall id :: id in timerData ==> timerData[id] != pConnInfo)
      && (forall c :: c in live && !c.Active && c != pConnInfo ==> IdleOk(c))
      && (forall a :: ListOk(a))
      && (forall id :: TimerOk(id))
    }

    /** The callback of an idle timer: takes the connection off its list and deletes it. */
    method OnTimeout(pConnInfo: ConnectionInfo)
      requires TimingOut(pConnInfo)
      modifies `m_stConnectionMap, `m_ConnectionCount, `live
      ensures live == old(live) - {pConnInfo} && m_ConnectionCount == |live|
      ensures forall c :: c in live && !c.Active ==> IdleOk(c)
      ensures forall a :: ListOk(a)
      ensures forall id :: TimerOk(id)
      ensures ListsSurvive(old(m_stConnectionMap), m_stConnectionMap, live)
    {
      assert ListOk(pConnInfo.stAddress);
      OneLess(pConnInfo);
      var list := m_stConnectionMap[pConnInfo.stAddress];
      var i := 0;
      while list[i] != pConnInfo
        invariant 0 <= i < |list| && pConnInfo in list[i..]
        decreases |list| - i
      {
        i := i + 1;
      }
      m_stConnectionMap := m_stConnectionMap[pConnInfo.stAddress := list[..i] + list[i + 1..]];
      live := live - {pConnInfo};
      if m_ConnectionCount > 0 {
        m_ConnectionCount := m_ConnectionCount - 1;
      }
      Timedout((pConnInfo, i));
      assert list[i] == pConnInfo;
      SurvivingWithout(list, i, old(live));
    }

    /** Without the connection, no list but its own loses anything. */
    lemma OneLess(c: ConnectionInfo)
      requires forall a :: ListOk(a)
      ensures forall a :: a in m_stConnectionMap && a != c.stAddress ==>
                Surviving(m_stConnectionMap[a], live - {c}) == m_stConnectionMap[a]
    {
      forall a | a in m_stConnectionMap && a != c.stAddress
        ensures Surviving(m_stConnectionMap[a], live - {c}) == m_stConnectionMap[a]
      {
        assert ListOk(a);
        SurvivingAll(m_stConnectionMap[a], live - {c});
      }
    }

    lemma AllSurvive()
      requires Books()
      ensures ListsSurvive(m_stConnectionMap, m_stConnectionMap, live)
    {
      forall a | a in m_stConnectionMap
        ensures Surviving(m_stConnectionMap[a], live) == m_stConnectionMap[a]
      {
        assert ListOk(a);
        SurvivingAll(m_stConnectionMap[a], live);
      }
    }

    twostate lemma Timedout(p: (ConnectionInfo, nat))
      requires var (c, i) := p;
        && old(TimingOut(c)) && live == old(live) - {c} && timerData == old(timerData)
        && c.stAddress in old(m_stConnectionMap) && i < |old(m_stConnectionMap)[c.stAddress]|
        && old(m_stConnectionMap)[c.stAddress][i] == c
        && m_stConnectionMap == old(m_stConnectionMap)[c.stAddress :=
             old(m_stConnectionMap)[c.stAddress][..i] + old(m_stConnectionMap)[c.stAddress][i + 1..]]
        && (forall d :: d in live ==> d.Active == old(d.Active) && d.IdleConnTimerId == old(d.IdleConnTimerId))
      ensures forall d :: d in live && !d.Active ==> IdleOk(d)
      ensures forall a :: ListOk(a)
      ensures forall id :: TimerOk(id)
    {
      ghost var (c, i) := p;
      forall a
        ensures ListOk(a)
      {
        assert old(ListOk(a));
      }
      forall id
        ensures TimerOk(id)
      {
        assert old(TimerOk(id));
      }
      forall d | d in live && !d.Active
        ensures IdleOk(d)
      {
        assert old(IdleOk(d));
        if d.stAddress == c.stAddress {
          ghost var list := old(m_stConnectionMap)[c.stAddress];
          ghost var j :| 0 <= j < |list| && list[j] == d;
          assert m_stConnectionMap[c.stAddress][if j < i then j else j - 1] == d;
        }
      }
    }

    /** One timer fires: it leaves the timer, and its connection is deleted. */
    method FireTimer(id: nat) returns (e: TimerSpec.Firing)
      requires Books() && id in timer.pending
      modifies `m_stConnectionMap, `m_ConnectionCount, `live, `timer, `timerData
      ensures Books() && e == Firing(id, old(timer.pending[id]), []) && timer == Fire(old(timer), e)
      ensures old(timerData)[id] in old(live) && live == old(live) - {old(timerData)[id]}
      ensures old(timerData)[id].IdleConnTimerId == id && !old(timerData)[id].Active
      ensures timerData == old(timerData) - {id}
      ensures ListsSurvive(old(m_stConnectionMap), m_stConnectionMap, live)
    {
      assert TimerOk(id);
      var pConnInfo := timerData[id];
      assert IdleOk(pConnInfo);
      e := Firing(id, timer.pending[id], []);
      timer := Fire(timer, e);
      timerData := timerData - {id};
      label Fired:
      OneTimerLess(pConnInfo);
      OnTimeout(pConnInfo);
    }

    twostate lemma OneTimerLess(c: ConnectionInfo)
      requires old(Books()) && c in live && !c.Active && live == old(live) && c.IdleConnTimerId in old(timerData)
      requires old(timerData)[c.IdleConnTimerId] == c
      requires m_ConnectionCount == old(m_ConnectionCount) && m_IdleConnectionTimeout == old(m_IdleConnectionTimeout)
      requires m_stConnectionMap == old(m_stConnectionMap)
      requires timerData == old(timerData) - {c.IdleConnTimerId} && timer.pending.Keys == timerData.Keys
      requires forall d :: d in live ==> d.Active == old(d.Active) && d.IdleConnTimerId == old(d.IdleConnTimerId)
      ensures TimingOut(c)
    {
      assert old(IdleOk(c));
      forall a
        ensures ListOk(a)
      {
        assert old(ListOk(a));
      }
      forall id
        ensures TimerOk(id)
        ensures id in timerData ==> timerData[id] != c
      {
        assert old(TimerOk(id));
      }
      forall d | d in live && !d.Active && d != c
        ensures IdleOk(d)
      {
        assert old(IdleOk(d));
      }
    }

    /** In the middle of CheckTimer: the timers fired so far are a legal log, and the connections still there are
        those held or with a timer still pending. */
    ghost predicate Expiring(f: Flat, log: seq<TimerSpec.Firing>, now: nat, before: set<ConnectionInfo>)
      reads this, live, before
    {
      && Books() && LegalLog(f, log, now) && timer == Replay(f, log)
      && timer.pending.Keys <= f.pending.Keys && timer.interval == f.interval
      && (forall id :: id in timer.pending ==> timer.pending[id] == f.pending[id])
      && (forall id :: id in f.pending && id !in timer.pending ==> f.pending[id] < now)
      && live <= before
      && (forall c :: c in before ==> (c in live <==> c.Active || c.IdleConnTimerId in timer.pending))
      && (forall c :: c in before && !c.Active ==> c.IdleConnTimerId in f.pending)
      && (forall c, d :: c in before && d in before && c.IdleConnTimerId == d.IdleConnTimerId ==>
            !c.Active && !d.Active ==> c == d)
    }

    /** The earliest timer fires, if it is due. */
    method ExpireEarliest(ghost f: Flat, ghost log: seq<TimerSpec.Firing>, now: nat, ghost before: set<ConnectionInfo>)
      returns (e: TimerSpec.Firing)
      requires Expiring(f, log, now, before) && exists id :: id in timer.pending && timer.pending[id] < now
      modifies `m_stConnectionMap, `m_ConnectionCount, `live, `timer, `timerData
      ensures Expiring(f, log + [e], now, before) && |timer.pending| < old(|timer.pending|)
      ensures ListsSurvive(old(m_stConnectionMap), m_stConnectionMap, live) && live <= old(live)
      ensures timerData.Keys <= old(timerData).Keys && forall id :: id in timerData ==>
              timerData[id] == old(timerData)[id]
    {
      hide LegalLog, Replay, Books, ListsSurvive;
      ghost var least := Earliest(timer.pending, timer.pending.Keys);
      assert least in timer.pending && forall j :: j in timer.pending ==> timer.pending[least] <= timer.pending[j];
      var id :| id in timer.pending && forall j :: j in timer.pending ==> timer.pending[id] <= timer.pending[j];
      ghost var start := timer;
      e := FireTimer(id);
      LegalSnoc(f, log, e, now);
      assert timer.pending == start.pending - {id};
    }

    /** CheckTimer of the pool's timers at `now`: a legal run of the timer machine, after which exactly the idle
        connections whose time had come are gone. Nothing anybody holds is touched. */
    method CheckTimer(now: nat) returns (ghost log: seq<TimerSpec.Firing>)
      requires Valid()
      modifies `m_stConnectionMap, `m_ConnectionCount, `live, `timer, `timerData
      ensures Valid() && Checked(old(timer), now, log, timer)
      ensures Held() == old(Held())
      ensures forall c :: c in old(live) && !c.Active ==> c.IdleConnTimerId in old(timer).pending
      ensures forall c :: c in live <==>
                c in old(live) && (c.Active || now <= old(timer).pending[c.IdleConnTimerId])
      ensures ListsSurvive(old(m_stConnectionMap), m_stConnectionMap, live)
      ensures timerData.Keys <= old(timerData).Keys && forall id :: id in timerData ==>
              timerData[id] == old(timerData)[id]
      ensures timer.interval == old(timer.interval)
      ensures forall id :: id in timer.pending ==>
                id in old(timer.pending) && timer.pending[id] == old(timer.pending)[id]
    {
      hide LegalLog, Replay, AfterCheck, Checked, Books, TimerSpec.Valid, ListsSurvive;
      log := [];
      ghost var f, before := timer, live;
      NothingFiredYet(now);
      AllSurvive();
      while exists id :: id in timer.pending && timer.pending[id] < now
        invariant Expiring(f, log, now, before)
        invariant ListsSurvive(old(m_stConnectionMap), m_stConnectionMap, live)
        invariant timerData.Keys <= old(timerData).Keys
        invariant forall id :: id in timerData ==> timerData[id] == old(timerData)[id]
        decreases |timer.pending|
      {
        ghost var lists, most := m_stConnectionMap, live;
        var e := ExpireEarliest(f, log, now, before);
        ListsSurviveTwice(old(m_stConnectionMap), lists, m_stConnectionMap, most, live);
        log := log + [e];
      }
      MoveClock(now);
      Finished(f, log, now, timer);
    }

    /** The last line of the timers' CheckTimer. */
    method MoveClock(now: nat)
      requires Books()
      modifies `timer
      ensures Books() && timer == old(timer).(last := if old(timer).last < now then now else old(timer).last)
    {
      if timer.last < now {
        timer := timer.(last := now);
      }
    }

    /** Once nothing due is left, the run of the timers is complete. */
    lemma Finished(f: Flat, log: seq<TimerSpec.Firing>, now: nat, g: Flat)
      requires TimerSpec.Valid(f) && LegalLog(f, log, now)
      requires g == Replay(f, log).(last := if Replay(f, log).last < now then now else Replay(f, log).last)
      requires forall id :: id in g.pending ==> now <= g.pending[id]
      ensures Checked(f, now, log, g) && TimerSpec.Valid(g)
    {
      CheckKeepsValid(f, now, log);
    }

    lemma NothingFiredYet(now: nat)
      requires Valid()
      ensures Expiring(timer, [], now, live)
    {
      forall c | c in live && !c.Active
        ensures IdleOk(c)
      {
      }
    }
  }

  /** A connection is put back and left alone: after any checks it is gone exactly if one of them went past the tick
      that was current, after the idle timeout had elapsed. From 2^31 on the timeout counts as negative. */
  method LeftAlone(pool: ConnectionPool, c: ConnectionInfo, now: nat, checks: seq<nat>)
    requires pool.Valid() && c in pool.Held() && pool.m_IdleConnectionTimeout < 0x1_0000_0000
    requires var idle: int := pool.m_IdleConnectionTimeout;
             Representable(pool.timer.interval, now, if idle < 0x8000_0000 then idle else idle - 0x1_0000_0000)
    modifies pool, c
    ensures pool.Valid() && pool.Held() == old(pool.Held()) - {c}
    ensures var idle: int := old(pool.m_IdleConnectionTimeout);
            var timeout := if idle < 0x8000_0000 then idle else idle - 0x1_0000_0000;
            c !in pool.live <==>
            exists i :: 0 <= i < |checks| && old(pool.timer.last) < checks[i]
                        && Elapsed(old(pool.timer.interval), now, timeout, checks[i])
  {
    hide ConnectionPool.Books, TimerSpec.Valid, Checked, SetFor, Elapsed, Representable, ListsSurvive;
    ghost var interval, last := pool.timer.interval, pool.timer.last;
    ghost var idle: int := pool.m_IdleConnectionTimeout;
    ghost var timeout: int := if idle < 0x8000_0000 then idle else idle - 0x1_0000_0000;
    HeldIsLive(pool, c);
    pool.Detach(c, now);
    ghost var id, tick := pool.timer.lastId, pool.timer.pending[pool.timer.lastId];
    for k := 0 to |checks|
      invariant pool.Valid() && pool.Held() == old(pool.Held()) - {c} && pool.timer.interval == interval
      invariant !c.Active && c.IdleConnTimerId == id
      invariant c in pool.live ==> id in pool.timer.pending && pool.timer.pending[id] == tick
      invariant c !in pool.live <==> exists i :: 0 <= i < k && tick < checks[i]
    {
      var log := pool.CheckTimer(checks[k]);
      IdleHasTimer(pool, c);
    }
    forall i | 0 <= i < |checks|
      ensures tick < checks[i] <==> last < checks[i] && Elapsed(interval, now, timeout, checks[i])
    {
      DueIffElapsed(interval, now, timeout, last, tick, checks[i]);
    }
  }

  lemma HeldIsLive(pool: ConnectionPool, c: ConnectionInfo)
    requires c in pool.Held()
    ensures c in pool.live && c.Active
  {
  }

  lemma IdleHasTimer(pool: ConnectionPool, c: ConnectionInfo)
    requires pool.Valid() && !c.Active
    ensures c in pool.live ==> c.IdleConnTimerId in pool.timer.pending
  {
    if c in pool.live {
      pool.IdleIsOnce(c);
    }
  }
}

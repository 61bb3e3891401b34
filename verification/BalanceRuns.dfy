/** Whole runs of the balancer: any calls of a client, in any order, with any clock readings and random numbers. */
module BalancingRuns {
  import opened Wrappers
  import opened Balancing

  datatype Call =
    | Add(address: nat, quotas: nat)
    | Erase(address: nat)
    | Fail(address: nat)
    | Succeed(address: nat)
    | Draw(now: int, rand: nat)

  predicate Sound(call: Call) {
    match call
    case Add(_, quotas) => quotas < M
    case Draw(_, rand) => rand <= RAND_MAX
    case _ => true
  }

  /** What a client can tell of a balancer: its points, in the order of the map, its total, its timestamp. */
  datatype Books = Books(points: seq<ServicePoint>, total: nat, last: int)

  ghost function View(lb: LoadBalance): Books
    reads lb
  {
    Books(lb.m_stServicesMap, lb.m_dwTotalQuotas, lb.m_LastTimestamp)
  }

  /** Every point keeps between 1 and its maximum, none has more left than it was given, and the total is the sum of
      what is left. */
  predicate Balanced(b: Books) {
    Ordered(b.points) && Bounded(b.points) && b.total < M && b.total == Sum(b.points) % M
  }

  /** What a Route drew: its seed, the points it drew from, and the address it gave out. Of another call, nothing. */
  datatype Drawn = Drawn(seed: nat, seen: seq<ServicePoint>, address: Option<nat>)

  /** The call takes the balancer from b to c. */
  ghost predicate Called(b: Books, call: Call, d: Drawn, c: Books) {
    match call
    case Add(address, quotas) =>
      && c.last == b.last && c.total == (b.total + quotas) % M && Ordered(c.points)
      && forall p :: p in c.points <==>
           p in b.points || (!Has(b.points, address) && p == ServicePoint(address, 0, 0, quotas, quotas, quotas))
    case Erase(address) =>
      && c.last == b.last && c.total == (b.total - Left(b.points, address)) % M && Ordered(c.points)
      && forall p :: p in c.points <==> p in b.points && p.address != address
    case Fail(address) =>
      && c.last == b.last && c.total == (b.total - Left(b.points, address)) % M
      && |c.points| == |b.points|
      && forall i :: 0 <= i < |c.points| ==>
           c.points[i] == if b.points[i].address == address
                          then b.points[i].(dwRealQuotas := 0, dwCurrentQuotas := 1)
                          else b.points[i]
    case Succeed(address) =>
      && c.last == b.last && c.total == b.total && |c.points| == |b.points|
      && forall i :: 0 <= i < |c.points| ==>
           c.points[i] == if b.points[i].address == address
                          then b.points[i].(dwRecvCount := (b.points[i].dwRecvCount + 1) % M)
                          else b.points[i]
    case Draw(now, rand) =>
      && Prepared(b.points, b.total, now - b.last, d.seen)
      && d.seed == (Sum(d.seen) + 1) % M * rand / RAND_MAX
      && c.last == (if now - b.last > RESET_TIME then now else b.last)
      && match Pick(d.seen, d.seed)
         case None => d.address == None && c.points == d.seen && c.total == Sum(d.seen) % M
         case Some(i) =>
           && d.address == Some(d.seen[i].address) && c.points == Take(d.seen, i)
           && c.total == (Sum(d.seen) - 1) % M
  }

  /** An address added again with a quota, or a draw of seed 0 on a first point that has no quota left. (Its quota
      wraps to 2^32 - 1, which is too many unless that is its whole quota.) */
  predicate Breaks(points: seq<ServicePoint>, call: Call, d: Drawn) {
    match call
    case Add(address, quotas) => Has(points, address) && 0 < quotas
    case Draw(_, _) =>
      d.seed == 0 && d.seen != [] && d.seen[0].dwRealQuotas == 0 && d.seen[0].dwCurrentQuotas != M - 1
    case _ => false
  }

  /** One call: its effect, and when it breaks the books. */
  method Make(lb: LoadBalance, call: Call) returns (ghost d: Drawn)
    requires Balanced(View(lb)) && Sound(call)
    modifies lb
    ensures Called(old(View(lb)), call, d, View(lb))
    ensures Balanced(View(lb)) <==> !Breaks(old(lb.m_stServicesMap), call, d)
  {
    hide Ordered, Bounded, Sum, Left, Pick, Take, Prepared;
    d := Drawn(0, [], None);
    match call
    case Add(address, quotas) => lb.AddServicePoint(address, quotas);
    case Erase(address) => lb.EraseServicePoint(address);
    case Fail(address) => lb.Failure(address);
    case Succeed(address) => lb.Success(address);
    case Draw(now, rand) => d := MakeDraw(lb, now, rand);
  }

  method MakeDraw(lb: LoadBalance, now: int, rand: nat) returns (ghost d: Drawn)
    requires Balanced(View(lb)) && rand <= RAND_MAX
    modifies lb
    ensures Called(old(View(lb)), Draw(now, rand), d, View(lb))
    ensures Balanced(View(lb)) <==> !Breaks(old(lb.m_stServicesMap), Draw(now, rand), d)
  {
    hide Ordered, Bounded, Sum, Pick, Take, Prepared;
    var address;
    ghost var seed, seen;
    address, seed, seen := lb.Route(now, rand);
    d := Drawn(seed, seen, address);
    NoneOrDry(seen, seed);
    if address != None && seed == 0 && seen[0].dwRealQuotas == 0 {
      DryTake(seen);
    }
  }

  /** Trace of the run of a script: from one balancer to the next by one call each, balanced up to the last. */
  ghost predicate Trace(script: seq<Call>, trace: seq<Books>, draws: seq<Drawn>) {
    && |trace| == |draws| + 1 && |draws| <= |script|
    && (forall i :: 0 <= i < |draws| ==> Balanced(trace[i]) && Called(trace[i], script[i], draws[i], trace[i + 1]))
    && forall i :: 0 <= i < |draws| ==> (Balanced(trace[i + 1]) <==> !Breaks(trace[i].points, script[i], draws[i]))
  }

  /** Any calls in any order, each with its effect: the books stay balanced to the end of the script, or up to the
      first call that breaks them, and no other call does. */
  method Run(lb: LoadBalance, script: seq<Call>) returns (ghost trace: seq<Books>, ghost draws: seq<Drawn>)
    requires Balanced(View(lb)) && forall i :: 0 <= i < |script| ==> Sound(script[i])
    modifies lb
    ensures Trace(script, trace, draws) && trace[0] == old(View(lb)) && trace[|draws|] == View(lb)
    ensures Balanced(View(lb)) ==> |draws| == |script|
  {
    hide Ordered, Bounded, Sum, Breaks, Called;
    trace, draws := [View(lb)], [];
    var done := 0;
    while done < |script|
      invariant done == |draws| <= |script| && Balanced(View(lb))
      invariant Trace(script, trace, draws) && trace[0] == old(View(lb)) && trace[done] == View(lb)
    {
      ghost var d := Make(lb, script[done]);
      trace, draws, done := trace + [View(lb)], draws + [d], done + 1;
      if !Balanced(Books(lb.m_stServicesMap, lb.m_dwTotalQuotas, lb.m_LastTimestamp)) {
        return;
      }
    }
  }

  lemma DryTake(points: seq<ServicePoint>)
    requires Ordered(points) && Bounded(points) && points != [] && points[0].dwRealQuotas == 0
    ensures Ordered(Take(points, 0)) && (Bounded(Take(points, 0)) <==> points[0].dwCurrentQuotas == M - 1)
    ensures Sum(Take(points, 0)) % M == (Sum(points) - 1) % M
  {
    hide Sum;
    TakeEffect(points, 0);
    TakeOrdered(points, 0);
    assert Take(points, 0)[0].dwRealQuotas == M - 1;
  }

  lemma NoneOrDry(points: seq<ServicePoint>, seed: nat)
    ensures Pick(points, seed) == None || 1 <= seed <= Sum(points)
            || (seed == 0 && points != [])
    ensures seed == 0 && points != [] ==> Pick(points, seed) == Some(0)
    ensures points == [] ==> Pick(points, seed) == None
  {
    DrawTakesAQuota(points, seed);
  }

  // ----- epochs

  /** Between the two states draws have been made and nothing else: a point has sent once for every quota it lacks. */
  predicate Spent(start: seq<ServicePoint>, now: seq<ServicePoint>) {
    && |now| == |start|
    && forall i :: 0 <= i < |now| ==>
         var used := start[i].dwRealQuotas - now[i].dwRealQuotas;
         && 0 <= used
         && now[i] == if used == 0 then start[i]
                      else start[i].(dwRealQuotas := now[i].dwRealQuotas,
                                     dwSendCount := (start[i].dwSendCount + used) % M)
  }

  lemma SpendOne(start: seq<ServicePoint>, now: seq<ServicePoint>, j: nat)
    requires Spent(start, now) && j < |now| && 1 <= now[j].dwRealQuotas < M
    ensures Spent(start, Take(now, j))
  {
    var used := start[j].dwRealQuotas - now[j].dwRealQuotas;
    if used > 0 {
      AddMod(start[j].dwSendCount + used, 1);
    }
  }

  /** A whole epoch of Route within one period, each call at its own time: whatever the values of rand(), as long as
      every seed lies in 1..total at its time, every address is handed out exactly as often as its point had quotas
      at the start, every point has sent that often, and in the end nothing is left. */
  method EpochOfRoutes(lb: LoadBalance, times: seq<int>, rands: seq<nat>) returns (addresses: seq<nat>)
    requires lb.Valid() && lb.Conserved() && Sum(lb.m_stServicesMap) == |rands| == |times| < M
    requires forall i :: 0 <= i < |times| ==> times[i] - lb.m_LastTimestamp <= RESET_TIME
    requires forall i :: 0 <= i < |rands| ==> rands[i] <= RAND_MAX
    requires Draws(|rands|, SeedsOf(|rands|, rands))
    modifies lb
    ensures lb.Valid() && lb.Conserved() && lb.m_dwTotalQuotas == 0 && lb.m_LastTimestamp == old(lb.m_LastTimestamp)
    ensures Spent(old(lb.m_stServicesMap), lb.m_stServicesMap)
    ensures forall p :: p in lb.m_stServicesMap ==> p.dwRealQuotas == 0
    ensures forall i :: 0 <= i < |old(lb.m_stServicesMap)| ==>
              Count(addresses, old(lb.m_stServicesMap)[i].address) == old(lb.m_stServicesMap)[i].dwRealQuotas
    ensures |addresses| == |rands|
  {
    hide Ordered, Bounded, Sum, Pick, Picks, Addresses, Take, Draws, Count, SeedsOf, Spent;
    addresses := [];
    ghost var start, seeds := lb.m_stServicesMap, SeedsOf(|rands|, rands);
    NothingSpent(start);
    for i := 0 to |rands|
      invariant lb.Valid() && lb.Conserved() && Sum(lb.m_stServicesMap) == |rands| - i
      invariant lb.m_LastTimestamp == old(lb.m_LastTimestamp) && Spent(start, lb.m_stServicesMap)
      invariant Draws(Sum(lb.m_stServicesMap), seeds[i..]) && |addresses| == i
      invariant Addresses(start, Picks(start, seeds))
             == addresses + Addresses(lb.m_stServicesMap, Picks(lb.m_stServicesMap, seeds[i..]))
    {
      var address := RouteOn(lb, times[i], rands[i], start, seeds[i..]);
      assert seeds[i..][1..] == seeds[i + 1..];
      addresses := addresses + [address];
    }
    EpochEnds(start, lb.m_stServicesMap, seeds, addresses);
  }

  lemma NothingSpent(points: seq<ServicePoint>)
    ensures Spent(points, points)
  {
  }

  /** One Route of an epoch. */
  method RouteOn(lb: LoadBalance, now: int, rand: nat, ghost start: seq<ServicePoint>, ghost seeds: seq<nat>)
    returns (address: nat)
    requires lb.Valid() && lb.Conserved() && Sum(lb.m_stServicesMap) < M && rand <= RAND_MAX
    requires now - lb.m_LastTimestamp <= RESET_TIME && Spent(start, lb.m_stServicesMap)
    requires Draws(Sum(lb.m_stServicesMap), seeds) && seeds != []
    requires seeds[0] == (Sum(lb.m_stServicesMap) + 1) % M * rand / RAND_MAX
    modifies lb
    ensures lb.Valid() && lb.Conserved() && Sum(lb.m_stServicesMap) == Sum(old(lb.m_stServicesMap)) - 1
    ensures Spent(start, lb.m_stServicesMap)
    ensures lb.m_LastTimestamp == old(lb.m_LastTimestamp) && Draws(Sum(lb.m_stServicesMap), seeds[1..])
    ensures Addresses(old(lb.m_stServicesMap), Picks(old(lb.m_stServicesMap), seeds))
         == [address] + Addresses(lb.m_stServicesMap, Picks(lb.m_stServicesMap, seeds[1..]))
  {
    hide Ordered, Bounded, Sum, Pick, Picks, Addresses, Take, Draws, Spent, Prepared;
    ghost var points, total, elapsed := lb.m_stServicesMap, lb.m_dwTotalQuotas, now - lb.m_LastTimestamp;
    ghost var j := DrawsOn(points, seeds);
    FirstSeed(Sum(points), seeds);
    QuotaFits(points, j);
    SpendOne(start, points, j);
    TakeEffect(points, j);
    var routed, seed, seen := lb.Route(now, rand);
    NoRefill(points, total, elapsed, seen);
    address := routed.value;
  }

  lemma NoRefill(points: seq<ServicePoint>, total: nat, elapsed: int, seen: seq<ServicePoint>)
    requires Prepared(points, total, elapsed, seen) && total != 0 && elapsed <= RESET_TIME
    ensures seen == points
  {
  }

  lemma QuotaFits(points: seq<ServicePoint>, i: nat)
    requires Bounded(points) && i < |points|
    ensures points[i].dwRealQuotas < M
  {
  }

  lemma FirstSeed(total: nat, seeds: seq<nat>)
    requires Draws(total, seeds) && seeds != []
    ensures 1 <= seeds[0] <= total
  {
  }
}

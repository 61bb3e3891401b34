/** Weighted balancing by quota depletion: every point starts an epoch with a quota, a random draw walks the
    points by their remaining quotas, and the epoch ends when the total is used up. Quotas and counters are
    32-bit unsigned. */
module Balancing {
  import opened Wrappers

  const M := 0x1_0000_0000
  const RAND_MAX := 0x7FFF_FFFF
  const RESET_TIME := 10

  datatype ServicePoint = ServicePoint(
    address: nat, dwSendCount: nat, dwRecvCount: nat, dwMaxQuotas: nat, dwCurrentQuotas: nat, dwRealQuotas: nat)

  function Sum(points: seq<ServicePoint>): nat {
    if points == [] then 0 else points[0].dwRealQuotas + Sum(points[1..])
  }

  // ----- the draw

  /** Which point a draw selects: the first whose remaining quota covers what is left of the seed. */
  function Pick(points: seq<ServicePoint>, seed: nat): (i: Option<nat>)
    ensures i.Some? ==> i.value < |points|
  {
    if points == [] then None
    else if seed <= points[0].dwRealQuotas then Some(0)
    else
      match Pick(points[1..], seed - points[0].dwRealQuotas)
      case None => None
      case Some(i) => Some(i + 1)
  }

  /** A seed of at least 1 selects point i exactly when it falls in the i-th interval of the quotas laid end to
      end. */
  lemma {:induction false} PickIsInterval(points: seq<ServicePoint>, seed: nat, i: nat)
    requires 1 <= seed && i < |points|
    ensures Pick(points, seed) == Some(i) <==> Sum(points[..i]) < seed <= Sum(points[..i + 1])
  {
    var rest := points[1..];
    if i == 0 {
      assert points[..1][1..] == [];
    } else {
      assert points[..i][1..] == rest[..i - 1] && points[..i + 1][1..] == rest[..i];
      if seed > points[0].dwRealQuotas {
        PickIsInterval(rest, seed - points[0].dwRealQuotas, i - 1);
      }
    }
  }

  /** A draw takes a quota that is there exactly when its seed lies in 1..total; a seed of 0 takes one from the
      first point, if that has any; the seed total + 1 selects nothing. */
  lemma {:induction false} DrawTakesAQuota(points: seq<ServicePoint>, seed: nat)
    ensures (Pick(points, seed).Some? && points[Pick(points, seed).value].dwRealQuotas >= 1)
       <==> 1 <= seed <= Sum(points) || (seed == 0 && points != [] && points[0].dwRealQuotas >= 1)
    ensures seed > Sum(points) <==> Pick(points, seed).None? && seed > 0
  {
    if points != [] && seed > points[0].dwRealQuotas {
      DrawTakesAQuota(points[1..], seed - points[0].dwRealQuotas);
    }
  }

  /** The seeds 1..n that select point i. */
  function SeedsFor(points: seq<ServicePoint>, i: nat, n: nat): set<nat> {
    set seed: nat | 1 <= seed <= n && Pick(points, seed) == Some(i)
  }

  predicate Within(x: int, lo: int, hi: int) {
    lo < x <= hi
  }

  lemma {:induction false} IntervalSize(s: set<nat>, lo: nat, hi: nat)
    requires lo <= hi && forall x: nat :: x in s <==> Within(x, lo, hi)
    ensures |s| == hi - lo
    decreases hi - lo
  {
    if lo < hi {
      assert Within(hi, lo, hi);
      forall x: nat
        ensures x in s - {hi} <==> Within(x, lo, hi - 1)
      {
        assert x in s <==> Within(x, lo, hi);
      }
      IntervalSize(s - {hi}, lo, hi - 1);
    } else {
      forall x: nat
        ensures x !in s
      {
        assert x in s <==> Within(x, lo, hi);
      }
      assert s == {};
    }
  }

  lemma {:induction false} SumPrefix(points: seq<ServicePoint>, i: nat)
    requires i < |points|
    ensures Sum(points[..i + 1]) == Sum(points[..i]) + points[i].dwRealQuotas <= Sum(points)
  {
    if i == 0 {
      assert points[..1][1..] == [];
    } else {
      assert points[..i][1..] == points[1..][..i - 1] && points[..i + 1][1..] == points[1..][..i];
      SumPrefix(points[1..], i - 1);
    }
  }

  /** In any one state exactly as many of the seeds 1..total select a point as it has quotas left. */
  lemma SeedsMatchQuotas(points: seq<ServicePoint>, i: nat)
    requires i < |points|
    ensures |SeedsFor(points, i, Sum(points))| == points[i].dwRealQuotas
  {
    SumPrefix(points, i);
    var lo, hi := Sum(points[..i]), Sum(points[..i + 1]);
    var seeds := SeedsFor(points, i, Sum(points));
    forall seed: nat
      ensures seed in seeds <==> Within(seed, lo, hi)
    {
      if seed >= 1 {
        PickIsInterval(points, seed, i);
      }
    }
    IntervalSize(seeds, lo, hi);
  }

  // ----- an epoch

  /** One quota of point i is used. */
  function Take(points: seq<ServicePoint>, i: nat): seq<ServicePoint>
    requires i < |points|
  {
    var p := points[i];
    points[i := p.(dwSendCount := (p.dwSendCount + 1) % M, dwRealQuotas := (p.dwRealQuotas - 1) % M)]
  }

  lemma {:induction false} TakeLowersSum(points: seq<ServicePoint>, i: nat)
    requires i < |points| && 1 <= points[i].dwRealQuotas < M
    ensures Sum(Take(points, i)) == Sum(points) - 1
  {
    if i > 0 {
      assert Take(points, i)[1..] == Take(points[1..], i - 1);
      TakeLowersSum(points[1..], i - 1);
    } else {
      assert Take(points, i)[1..] == points[1..];
    }
  }

  predicate InRange(points: seq<ServicePoint>) {
    forall i :: 0 <= i < |points| ==> points[i].dwRealQuotas < M
  }

  predicate AllPoints(points: seq<ServicePoint>, picks: seq<nat>) {
    forall k :: 0 <= k < |picks| ==> picks[k] < |points|
  }

  /** The points selected by a run of draws. */
  function Picks(points: seq<ServicePoint>, seeds: seq<nat>): (picks: seq<nat>)
    ensures AllPoints(points, picks)
    decreases |seeds|
  {
    if seeds == [] then []
    else
      match Pick(points, seeds[0])
      case None => Picks(points, seeds[1..])
      case Some(i) => [i] + Picks(Take(points, i), seeds[1..])
  }

  /** Every seed lies in 1..total at its time. */
  predicate Draws(total: nat, seeds: seq<nat>) {
    |seeds| <= total && forall k :: 0 <= k < |seeds| ==> 1 <= seeds[k] <= total - k
  }

  function Count(xs: seq<nat>, x: nat): nat {
    if xs == [] then 0 else (if xs[0] == x then 1 else 0) + Count(xs[1..], x)
  }

  /** Drawing until the total is used up selects every point exactly as often as its quota said at the start,
      whatever the seeds. */
  lemma {:induction false} EpochIsExact(points: seq<ServicePoint>, seeds: seq<nat>, i: nat)
    requires InRange(points) && Draws(Sum(points), seeds) && |seeds| == Sum(points) && i < |points|
    ensures Count(Picks(points, seeds), i) == points[i].dwRealQuotas
    ensures |Picks(points, seeds)| == Sum(points)
    decreases |seeds|
  {
    hide Sum, Pick;
    if seeds == [] {
      SumPrefix(points, i);
    } else {
      DrawTakesAQuota(points, seeds[0]);
      var j := Pick(points, seeds[0]).value;
      TakeLowersSum(points, j);
      assert Draws(Sum(points) - 1, seeds[1..]);
      EpochIsExact(Take(points, j), seeds[1..], i);
    }
  }

  /** The addresses those points stand for. */
  function Addresses(points: seq<ServicePoint>, picks: seq<nat>): seq<nat>
    requires AllPoints(points, picks)
  {
    if picks == [] then [] else [points[picks[0]].address] + Addresses(points, picks[1..])
  }

  lemma {:induction false} SameAddresses(points: seq<ServicePoint>, i: nat, picks: seq<nat>)
    requires i < |points| && AllPoints(points, picks)
    ensures Addresses(Take(points, i), picks) == Addresses(points, picks)
  {
    if picks != [] {
      SameAddresses(points, i, picks[1..]);
    }
  }

  lemma {:induction false} AddressesCount(points: seq<ServicePoint>, picks: seq<nat>, i: nat)
    requires Ordered(points) && AllPoints(points, picks) && i < |points|
    ensures Count(Addresses(points, picks), points[i].address) == Count(picks, i)
  {
    if picks != [] {
      AddressesCount(points, picks[1..], i);
      assert Addresses(points, picks)[1..] == Addresses(points, picks[1..]);
    }
  }

  /** One draw of an epoch: it picks a point with a quota left and leaves the rest of the epoch. */
  lemma DrawsOn(points: seq<ServicePoint>, seeds: seq<nat>) returns (j: nat)
    requires Draws(Sum(points), seeds) && seeds != []
    ensures j < |points| && Pick(points, seeds[0]) == Some(j) && points[j].dwRealQuotas >= 1
    ensures Draws(Sum(points) - 1, seeds[1..])
    ensures Addresses(points, Picks(points, seeds))
         == [points[j].address] + Addresses(Take(points, j), Picks(Take(points, j), seeds[1..]))
  {
    hide Sum, Pick, Count;
    DrawTakesAQuota(points, seeds[0]);
    j := Pick(points, seeds[0]).value;
    SameAddresses(points, j, Picks(Take(points, j), seeds[1..]));
    assert Picks(points, seeds)[1..] == Picks(Take(points, j), seeds[1..]);
  }

  /** At the end of an epoch no point has a quota left. */
  lemma {:induction false} NothingLeft(points: seq<ServicePoint>)
    requires Sum(points) == 0
    ensures forall p :: p in points ==> p.dwRealQuotas == 0
  {
    if points != [] {
      NothingLeft(points[1..]);
      assert points == [points[0]] + points[1..];
    }
  }

  // ----- the quota policy

  /** The lost rate of the last period, as exact rationals: it cuts a point to 1 above 3 percent and lets it
      recover by a fifth below 0.05 percent, by a twentieth in between. A point always keeps between 1 and its
      maximum. */
  function ResetPoint(p: ServicePoint): (q: ServicePoint)
    ensures q.address == p.address && q.dwMaxQuotas == p.dwMaxQuotas && q.dwRealQuotas == p.dwRealQuotas
    ensures q.dwSendCount == q.dwRecvCount == 0
    ensures 1 <= p.dwCurrentQuotas <= p.dwMaxQuotas ==> 1 <= q.dwCurrentQuotas <= q.dwMaxQuotas
    ensures p.dwSendCount == 0 ==> q.dwCurrentQuotas == p.dwCurrentQuotas
    ensures p.dwCurrentQuotas <= Ceiling(p) ==> q.dwCurrentQuotas <= Ceiling(q)
  {
    var lost := (p.dwSendCount - p.dwRecvCount) % M;
    var current :=
      if p.dwSendCount == 0 then p.dwCurrentQuotas
      else if 100 * lost > 3 * p.dwSendCount then 1
      else
        var quotas := p.dwCurrentQuotas + p.dwMaxQuotas / (if 10000 * lost < 5 * p.dwSendCount then 5 else 20);
        if quotas > p.dwMaxQuotas then p.dwMaxQuotas else quotas;
    p.(dwCurrentQuotas := current, dwSendCount := 0, dwRecvCount := 0)
  }

  /** A point at the start of an epoch. */
  function Refilled(p: ServicePoint, reset: bool): (q: ServicePoint)
    ensures q.dwRealQuotas == q.dwCurrentQuotas && q.address == p.address && q.dwMaxQuotas == p.dwMaxQuotas
    ensures 1 <= p.dwCurrentQuotas <= p.dwMaxQuotas ==> 1 <= q.dwCurrentQuotas <= q.dwMaxQuotas
    ensures p.dwCurrentQuotas <= Ceiling(p) ==> q.dwCurrentQuotas <= Ceiling(q)
  {
    var q := if reset then ResetPoint(p) else p;
    q.(dwRealQuotas := q.dwCurrentQuotas)
  }

  /** g is one k-th of the maximum, in whole quotas. */
  predicate Share(max: nat, k: nat, g: nat) {
    k * g <= max < k * (g + 1)
  }

  function AtMost(n: nat, max: nat): nat {
    if n > max then max else n
  }

  /** The point gains one k-th of its maximum, and no more than is missing. */
  predicate Gains(p: ServicePoint, q: ServicePoint, k: nat) {
    exists g: nat :: g <= p.dwMaxQuotas && Share(p.dwMaxQuotas, k, g)
      && q.dwCurrentQuotas == AtMost(p.dwCurrentQuotas + g, p.dwMaxQuotas)
  }

  /** The end of a period for a point that sent and heard back from its peer this often: without traffic nothing
      changes; above 3 lost of 100 it is cut to 1; below 5 lost of 10000 it gains a fifth; between, a twentieth. */
  predicate Adjusted(p: ServicePoint, q: ServicePoint) {
    var lost := (p.dwSendCount - p.dwRecvCount) % M;
    && (p.dwSendCount == 0 ==> q.dwCurrentQuotas == p.dwCurrentQuotas)
    && (p.dwSendCount > 0 && 100 * lost > 3 * p.dwSendCount ==> q.dwCurrentQuotas == 1)
    && (p.dwSendCount > 0 && 10000 * lost < 5 * p.dwSendCount ==> Gains(p, q, 5))
    && (p.dwSendCount > 0 && 3 * p.dwSendCount >= 100 * lost && 10000 * lost >= 5 * p.dwSendCount ==> Gains(p, q, 20))
  }

  /** A refilled point: its quota is adjusted, and its counters start again, exactly if a period is over. */
  predicate Renewal(p: ServicePoint, reset: bool, q: ServicePoint) {
    && q.address == p.address && q.dwMaxQuotas == p.dwMaxQuotas && q.dwRealQuotas == q.dwCurrentQuotas
    && (reset ==> Adjusted(p, q) && q.dwSendCount == q.dwRecvCount == 0)
    && (!reset ==> q.dwCurrentQuotas == p.dwCurrentQuotas && q.dwSendCount == p.dwSendCount
                   && q.dwRecvCount == p.dwRecvCount)
  }

  lemma ShareIs(max: nat, k: nat)
    requires k == 5 || k == 20
    ensures max / k <= max && Share(max, k, max / k)
  {
  }

  lemma ResetAdjusts(p: ServicePoint)
    ensures Adjusted(p, ResetPoint(p))
  {
    ShareIs(p.dwMaxQuotas, 5);
    ShareIs(p.dwMaxQuotas, 20);
  }

  lemma RefilledRenews(p: ServicePoint, reset: bool)
    ensures Renewal(p, reset, Refilled(p, reset))
  {
    hide Adjusted;
    ResetAdjusts(p);
    if reset {
      SameQuota(p, ResetPoint(p), Refilled(p, reset));
    }
  }

  lemma SameQuota(p: ServicePoint, q: ServicePoint, r: ServicePoint)
    requires Adjusted(p, q) && r.dwCurrentQuotas == q.dwCurrentQuotas
    ensures Adjusted(p, r)
  {
  }

  /** Of two points that differ only in their replies, the one with more of them never gets fewer quotas. */
  lemma MoreRepliesNeverFewer(p: ServicePoint, replies: nat)
    requires p.dwRecvCount <= replies <= p.dwSendCount < M && 1 <= p.dwCurrentQuotas <= p.dwMaxQuotas
    ensures ResetPoint(p).dwCurrentQuotas <= ResetPoint(p.(dwRecvCount := replies)).dwCurrentQuotas
  {
  }

  /** A point with more than one quota falls exactly if it lost more than 3 of 100, and then to 1. */
  lemma FallsIfLossy(p: ServicePoint)
    requires p.dwRecvCount <= p.dwSendCount < M && 1 < p.dwCurrentQuotas <= p.dwMaxQuotas
    ensures var lost := p.dwSendCount - p.dwRecvCount;
            && (ResetPoint(p).dwCurrentQuotas == 1 <==> 100 * lost > 3 * p.dwSendCount)
            && (ResetPoint(p).dwCurrentQuotas < p.dwCurrentQuotas <==> 100 * lost > 3 * p.dwSendCount)
  {
  }

  /** More replies than requests count as losses: the difference wraps. */
  lemma TooManyReplies(p: ServicePoint)
    requires 0 < p.dwSendCount < p.dwRecvCount < M
    ensures ResetPoint(p).dwCurrentQuotas == 1
  {
    assert (p.dwSendCount - p.dwRecvCount) % M == p.dwSendCount - p.dwRecvCount + M;
  }

  /** A point below its maximum recovers: by a fifth of it exactly below 5 lost of 10000, by a twentieth up to 3 of
      100. The two differ when the maximum is at least 5. */
  lemma RecoversBy(p: ServicePoint, fifth: nat, twentieth: nat)
    requires p.dwRecvCount <= p.dwSendCount < M && 0 < p.dwSendCount && p.dwCurrentQuotas < p.dwMaxQuotas
    requires 100 * (p.dwSendCount - p.dwRecvCount) <= 3 * p.dwSendCount
    requires Share(p.dwMaxQuotas, 5, fifth) && Share(p.dwMaxQuotas, 20, twentieth)
    ensures var lost, next := p.dwSendCount - p.dwRecvCount, ResetPoint(p).dwCurrentQuotas;
            var max, most, least := p.dwMaxQuotas, p.dwCurrentQuotas + fifth, p.dwCurrentQuotas + twentieth;
            && (10000 * lost < 5 * p.dwSendCount ==> next == AtMost(most, max))
            && (10000 * lost >= 5 * p.dwSendCount ==> next == AtMost(least, max))
            && (5 <= max && least < max ==> (next == AtMost(most, max) <==> 10000 * lost < 5 * p.dwSendCount))
  {
    SharesAre(p.dwMaxQuotas, 5, fifth);
    SharesAre(p.dwMaxQuotas, 20, twentieth);
  }

  lemma SharesAre(max: nat, k: nat, g: nat)
    requires k == 5 || k == 20
    requires Share(max, k, g)
    ensures g == max / k
  {
  }

  /** The point after periods in each of which every one of so many requests was answered. */
  function AfterLossless(p: ServicePoint, traffic: seq<nat>): (q: ServicePoint)
    ensures q.dwMaxQuotas == p.dwMaxQuotas
  {
    if traffic == [] then p
    else
      var n := traffic[|traffic| - 1];
      ResetPoint(AfterLossless(p, traffic[..|traffic| - 1]).(dwSendCount := n, dwRecvCount := n))
  }

  lemma {:induction false} LosslessGains(p: ServicePoint, traffic: seq<nat>)
    requires 1 <= p.dwCurrentQuotas <= p.dwMaxQuotas && forall i :: 0 <= i < |traffic| ==> 0 < traffic[i]
    ensures AfterLossless(p, traffic).dwCurrentQuotas <= p.dwMaxQuotas
    ensures p.dwMaxQuotas <= AfterLossless(p, traffic).dwCurrentQuotas
            || p.dwCurrentQuotas + |traffic| * (p.dwMaxQuotas / 5) <= AfterLossless(p, traffic).dwCurrentQuotas
  {
    hide ResetPoint;
    if traffic != [] {
      var n := |traffic| - 1;
      LosslessGains(p, traffic[..n]);
      OneLossless(AfterLossless(p, traffic[..n]), traffic[n]);
      OneMoreShare(n, p.dwMaxQuotas / 5);
    }
  }

  lemma OneMoreShare(n: nat, share: nat)
    ensures (n + 1) * share == n * share + share
  {
  }

  lemma OneLossless(p: ServicePoint, n: nat)
    requires 0 < n && p.dwCurrentQuotas <= p.dwMaxQuotas
    ensures var next := ResetPoint(p.(dwSendCount := n, dwRecvCount := n)).dwCurrentQuotas;
            && next <= p.dwMaxQuotas
            && (next == p.dwMaxQuotas || next == p.dwCurrentQuotas + p.dwMaxQuotas / 5)
  {
  }

  /** Five lossless periods with traffic bring a point from any quota to its maximum, if that is divisible by 5. */
  lemma FivePeriods(p: ServicePoint, traffic: seq<nat>)
    requires 1 <= p.dwCurrentQuotas <= p.dwMaxQuotas && p.dwMaxQuotas % 5 == 0
    requires |traffic| == 5 && forall i :: 0 <= i < |traffic| ==> 0 < traffic[i]
    ensures AfterLossless(p, traffic).dwCurrentQuotas == p.dwMaxQuotas
  {
    hide AfterLossless;
    LosslessGains(p, traffic);
  }

  lemma AddMod(a: nat, b: nat)
    ensures (a % M + b) % M == (a + b) % M
  {
  }

  lemma SubMod(a: nat, b: nat)
    requires b <= a
    ensures (a % M - b) % M == (a - b) % M
  {
  }

  // ----- the ordered map of points

  predicate Ordered(points: seq<ServicePoint>) {
    forall i, j :: 0 <= i < j < |points| ==> points[i].address > points[j].address
  }

  predicate Has(points: seq<ServicePoint>, address: nat) {
    exists i :: 0 <= i < |points| && points[i].address == address
  }

  /** No point is ever given more than this: a point without quotas gets 1 after a failure. */
  function Ceiling(p: ServicePoint): nat {
    if p.dwMaxQuotas == 0 then 1 else p.dwMaxQuotas
  }

  /** Every point keeps between 1 and its maximum, and never has more left than it was given. */
  predicate Bounded(points: seq<ServicePoint>) {
    forall i :: 0 <= i < |points| ==>
      && points[i].dwRealQuotas <= points[i].dwCurrentQuotas < M && points[i].dwMaxQuotas < M
      && (1 <= points[i].dwMaxQuotas ==> 1 <= points[i].dwCurrentQuotas <= points[i].dwMaxQuotas)
      && points[i].dwCurrentQuotas <= Ceiling(points[i])
  }

  lemma {:induction false} SumOfParts(a: seq<ServicePoint>, b: seq<ServicePoint>)
    ensures Sum(a + b) == Sum(a) + Sum(b)
  {
    if a == [] {
      assert a + b == b;
    } else {
      assert (a + b)[1..] == a[1..] + b;
      SumOfParts(a[1..], b);
    }
  }

  lemma SumWithout(points: seq<ServicePoint>, i: nat)
    requires i < |points|
    ensures Sum(points[..i] + points[i + 1..]) == Sum(points) - points[i].dwRealQuotas
  {
    SumOfParts(points[..i], points[i + 1..]);
    SumOfParts(points[..i + 1], points[i + 1..]);
    assert points == points[..i + 1] + points[i + 1..];
    SumPrefix(points, i);
  }

  lemma SumWith(points: seq<ServicePoint>, i: nat, p: ServicePoint)
    requires i < |points|
    ensures Sum(points[i := p]) == Sum(points) - points[i].dwRealQuotas + p.dwRealQuotas
  {
    var changed := points[i := p];
    SumWithout(points, i);
    SumWithout(changed, i);
    assert changed[..i] + changed[i + 1..] == points[..i] + points[i + 1..];
  }

  lemma InsertedKeeps(points: seq<ServicePoint>, i: nat, p: ServicePoint)
    requires Ordered(points) && Bounded(points) && i <= |points| && Bounded([p])
    requires forall j :: 0 <= j < i ==> points[j].address > p.address
    requires forall j :: i <= j < |points| ==> points[j].address < p.address
    ensures Ordered(points[..i] + [p] + points[i..]) && Bounded(points[..i] + [p] + points[i..])
  {
    assert [p][0] == p;
  }

  lemma NewPointBounded(p: ServicePoint)
    requires p.dwRealQuotas == p.dwCurrentQuotas == p.dwMaxQuotas < M
    ensures Bounded([p])
  {
  }

  lemma RemovedKeeps(points: seq<ServicePoint>, i: nat)
    requires Ordered(points) && Bounded(points) && i < |points|
    ensures var fewer := points[..i] + points[i + 1..];
            && Ordered(fewer) && Bounded(fewer) && !Has(fewer, points[i].address)
            && forall p :: p in fewer <==> p in points && p.address != points[i].address
  {
    hide Bounded;
    RemovedOrder(points, i);
    RemovedBound(points, i);
    RemovedMembers(points, i);
  }

  lemma RemovedOrder(points: seq<ServicePoint>, i: nat)
    requires Ordered(points) && i < |points|
    ensures Ordered(points[..i] + points[i + 1..])
    ensures forall j :: 0 <= j < |points| && j != i ==> points[j].address != points[i].address
  {
  }

  lemma RemovedBound(points: seq<ServicePoint>, i: nat)
    requires Bounded(points) && i < |points|
    ensures Bounded(points[..i] + points[i + 1..])
  {
  }

  lemma RemovedMembers(points: seq<ServicePoint>, i: nat)
    requires i < |points| && forall j :: 0 <= j < |points| && j != i ==> points[j].address != points[i].address
    ensures var fewer := points[..i] + points[i + 1..];
            && !Has(fewer, points[i].address)
            && forall p :: p in fewer <==> p in points && p.address != points[i].address
  {
    var fewer := points[..i] + points[i + 1..];
    forall p | p in points && p.address != points[i].address
      ensures p in fewer
    {
      var j :| 0 <= j < |points| && points[j] == p;
      assert fewer[if j < i then j else j - 1] == p;
    }
    forall k | 0 <= k < |fewer|
      ensures fewer[k] in points && fewer[k].address != points[i].address
    {
      assert fewer[k] == points[if k < i then k else k + 1];
    }
  }

  lemma InsertedSum(points: seq<ServicePoint>, i: nat, p: ServicePoint)
    requires i <= |points|
    ensures Sum(points[..i] + [p] + points[i..]) == Sum(points) + p.dwRealQuotas
    ensures forall q :: q in points[..i] + [p] + points[i..] <==> q in points || q == p
  {
    hide Sum;
    var more := points[..i] + [p] + points[i..];
    SumWithout(more, i);
    assert more[i] == p && more[..i] + more[i + 1..] == points;
    assert points == points[..i] + points[i..];
  }

  /** What the point of an address has left; 0 if there is none. */
  function Left(points: seq<ServicePoint>, address: nat): nat {
    if points == [] then 0
    else if points[0].address == address then points[0].dwRealQuotas
    else Left(points[1..], address)
  }

  lemma {:induction false} LeftOf(points: seq<ServicePoint>, address: nat, i: nat)
    requires Ordered(points) && i <= |points| && forall j :: 0 <= j < i ==> points[j].address != address
    ensures i < |points| && points[i].address == address ==> Left(points, address) == points[i].dwRealQuotas
    ensures i == |points| ==> Left(points, address) == 0
    decreases i
  {
    if 0 < i {
      LeftOf(points[1..], address, i - 1);
    }
  }

  /** What Find makes of an address. */
  lemma LeftFound(points: seq<ServicePoint>, address: nat, i: nat)
    requires Ordered(points) && i <= |points|
    requires forall j :: 0 <= j < i ==> points[j].address > address
    requires forall j :: i <= j < |points| ==> points[j].address <= address
    ensures Left(points, address)
         == if i < |points| && points[i].address == address then points[i].dwRealQuotas else 0
  {
    if i < |points| && points[i].address == address {
      LeftOf(points, address, i);
    } else {
      forall j | 0 <= j < |points|
        ensures points[j].address != address
      {
        assert i <= j ==> points[j].address <= points[i].address;
      }
      LeftOf(points, address, |points|);
    }
  }

  class LoadBalance {
    var m_dwTotalQuotas: nat
    var m_LastTimestamp: int
    var m_stServicesMap: seq<ServicePoint>   // in the order of the map

    ghost predicate Valid()
      reads this
    {
      Ordered(m_stServicesMap) && Bounded(m_stServicesMap) && m_dwTotalQuotas < M
    }

    /** The total is the sum of the remaining quotas, in 32 bits. */
    ghost predicate Conserved()
      reads this
    {
      m_dwTotalQuotas == Sum(m_stServicesMap) % M
    }

    /** An empty balancer; its timestamp is whatever the memory held. */
    constructor (timestamp: int)
      ensures Valid() && Conserved() && m_stServicesMap == [] && m_LastTimestamp == timestamp
    {
      m_dwTotalQuotas, m_LastTimestamp, m_stServicesMap := 0, timestamp, [];
    }

    /** Where `address` is, or where it would go. */
    method Find(address: nat) returns (i: nat)
      requires Ordered(m_stServicesMap)
      ensures i <= |m_stServicesMap|
      ensures forall j :: 0 <= j < i ==> m_stServicesMap[j].address > address
      ensures forall j :: i <= j < |m_stServicesMap| ==> m_stServicesMap[j].address <= address
      ensures Has(m_stServicesMap, address) <==> i < |m_stServicesMap| && m_stServicesMap[i].address == address
    {
      i := 0;
      while i < |m_stServicesMap| && m_stServicesMap[i].address > address
        invariant i <= |m_stServicesMap|
        invariant forall j :: 0 <= j < i ==> m_stServicesMap[j].address > address
      {
        i := i + 1;
      }
    }

    /** Adds a point with its whole quota. An address that is there already keeps its point, but its quota is
        counted once more: the total stays the sum exactly when the address is new or the quota is 0. */
    method AddServicePoint(address: nat, dwQuotas: nat)
      requires Valid() && dwQuotas < M
      modifies `m_dwTotalQuotas, `m_stServicesMap
      ensures Valid() && m_dwTotalQuotas == (old(m_dwTotalQuotas) + dwQuotas) % M
      ensures |m_stServicesMap| == |old(m_stServicesMap)| + (if old(Has(m_stServicesMap, address)) then 0 else 1)
      ensures old(Conserved()) ==> (Conserved() <==> !old(Has(m_stServicesMap, address)) || dwQuotas == 0)
      ensures forall p :: p in m_stServicesMap <==>
                p in old(m_stServicesMap)
                || (!old(Has(m_stServicesMap, address))
                   && p == ServicePoint(address, 0, 0, dwQuotas, dwQuotas, dwQuotas))
    {
      hide Ordered, Bounded, Sum;
      var point := ServicePoint(address, 0, 0, dwQuotas, dwQuotas, dwQuotas);
      AddMod(Sum(m_stServicesMap), dwQuotas);
      m_dwTotalQuotas := (m_dwTotalQuotas + dwQuotas) % M;
      var i := Find(address);
      if i == |m_stServicesMap| || m_stServicesMap[i].address != address {
        var points := m_stServicesMap;
        InsertedSum(points, i, point);
        NewPointBounded(point);
        InsertedKeeps(points, i, point);
        m_stServicesMap := points[..i] + [point] + points[i..];
      }
    }

    method EraseServicePoint(address: nat)
      requires Valid()
      modifies `m_dwTotalQuotas, `m_stServicesMap
      ensures Valid() && (old(Conserved()) ==> Conserved())
      ensures m_dwTotalQuotas == (old(m_dwTotalQuotas) - Left(old(m_stServicesMap), address)) % M
      ensures !Has(m_stServicesMap, address)
      ensures forall p :: p in m_stServicesMap <==> p in old(m_stServicesMap) && p.address != address
    {
      hide Ordered, Bounded, Sum, Left;
      var i := Find(address);
      LeftFound(m_stServicesMap, address, i);
      if i == |m_stServicesMap| || m_stServicesMap[i].address != address {
        return;
      }
      var points := m_stServicesMap;
      SumWithout(points, i);
      RemovedKeeps(points, i);
      SubMod(Sum(points), points[i].dwRealQuotas);
      m_dwTotalQuotas := (m_dwTotalQuotas - points[i].dwRealQuotas) % M;
      m_stServicesMap := points[..i] + points[i + 1..];
    }

    /** A failed point is out for the rest of the epoch and restarts at 1. */
    method Failure(address: nat)
      requires Valid()
      modifies `m_dwTotalQuotas, `m_stServicesMap
      ensures Valid() && (old(Conserved()) ==> Conserved())
      ensures m_dwTotalQuotas == (old(m_dwTotalQuotas) - Left(old(m_stServicesMap), address)) % M
      ensures |m_stServicesMap| == |old(m_stServicesMap)|
      ensures forall i :: 0 <= i < |m_stServicesMap| ==>
                m_stServicesMap[i] == if old(m_stServicesMap)[i].address == address
                                      then old(m_stServicesMap)[i].(dwRealQuotas := 0, dwCurrentQuotas := 1)
                                      else old(m_stServicesMap)[i]
    {
      hide Left;
      var i := Find(address);
      LeftFound(m_stServicesMap, address, i);
      if i == |m_stServicesMap| || m_stServicesMap[i].address != address {
        return;
      }
      var point := m_stServicesMap[i].(dwRealQuotas := 0, dwCurrentQuotas := 1);
      SumWith(m_stServicesMap, i, point);
      SubMod(Sum(m_stServicesMap), m_stServicesMap[i].dwRealQuotas);
      m_dwTotalQuotas := (m_dwTotalQuotas - m_stServicesMap[i].dwRealQuotas) % M;
      m_stServicesMap := m_stServicesMap[i := point];
    }

    method Success(address: nat)
      requires Valid()
      modifies `m_stServicesMap
      ensures Valid() && (old(Conserved()) ==> Conserved())
      ensures |m_stServicesMap| == |old(m_stServicesMap)|
      ensures forall i :: 0 <= i < |m_stServicesMap| ==>
                var p := old(m_stServicesMap)[i];
                m_stServicesMap[i] == if p.address == address then p.(dwRecvCount := (p.dwRecvCount + 1) % M) else p
    {
      var i := Find(address);
      if i == |m_stServicesMap| || m_stServicesMap[i].address != address {
        return;
      }
      var point := m_stServicesMap[i].(dwRecvCount := (m_stServicesMap[i].dwRecvCount + 1) % M);
      SumWith(m_stServicesMap, i, point);
      m_stServicesMap := m_stServicesMap[i := point];
    }

    /** Starts an epoch: every point gets its current quota back, after the policy adjusted it if a period is
        over. */
    method Refill(reset: bool)
      requires Valid()
      modifies `m_dwTotalQuotas, `m_stServicesMap
      ensures Valid() && Conserved()
      ensures |m_stServicesMap| == |old(m_stServicesMap)|
      ensures forall i :: 0 <= i < |m_stServicesMap| ==> m_stServicesMap[i] == Refilled(old(m_stServicesMap)[i], reset)
      ensures forall i :: 0 <= i < |m_stServicesMap| ==> Renewal(old(m_stServicesMap)[i], reset, m_stServicesMap[i])
    {
      hide Refilled, Renewal;
      m_dwTotalQuotas := 0;
      var points := m_stServicesMap;
      for i := 0 to |points|
        invariant |m_stServicesMap| == |points| && m_dwTotalQuotas < M
        invariant forall j :: i <= j < |points| ==> m_stServicesMap[j] == points[j]
        invariant forall j :: 0 <= j < i ==> m_stServicesMap[j] == Refilled(points[j], reset)
        invariant m_dwTotalQuotas == Sum(m_stServicesMap[..i]) % M
      {
        var p := Renew(m_stServicesMap[i], reset);
        ghost var before := m_stServicesMap[..i];
        m_stServicesMap := m_stServicesMap[i := p];
        assert m_stServicesMap[..i] == before;
        SumPrefix(m_stServicesMap, i);
        AddMod(Sum(before), p.dwRealQuotas);
        m_dwTotalQuotas := (m_dwTotalQuotas + p.dwRealQuotas) % M;
      }
      assert m_stServicesMap[..|points|] == m_stServicesMap;
      StillBounded(points, m_stServicesMap, reset);
      AllRenewed(points, m_stServicesMap, reset);
    }

    /** The draw: walks the points by their remaining quotas and takes one quota of the point it stops at. */
    method Draw(dwSeed: nat) returns (address: Option<nat>)
      requires Valid()
      modifies `m_dwTotalQuotas, `m_stServicesMap
      ensures match Pick(old(m_stServicesMap), dwSeed)
              case None =>
                address == None && m_stServicesMap == old(m_stServicesMap) && m_dwTotalQuotas == old(m_dwTotalQuotas)
              case Some(i) =>
                && address == Some(old(m_stServicesMap)[i].address)
                && m_stServicesMap == Take(old(m_stServicesMap), i)
                && m_dwTotalQuotas == (old(m_dwTotalQuotas) - 1) % M
    {
      var seed: nat := dwSeed;
      for i := 0 to |m_stServicesMap|
        invariant m_stServicesMap == old(m_stServicesMap) && m_dwTotalQuotas == old(m_dwTotalQuotas)
        invariant Pick(m_stServicesMap, dwSeed) ==
                    match Pick(m_stServicesMap[i..], seed) case None => None case Some(k) => Some(i + k)
      {
        var p := m_stServicesMap[i];
        assert m_stServicesMap[i..][1..] == m_stServicesMap[i + 1..];
        if seed <= p.dwRealQuotas {
          m_stServicesMap := m_stServicesMap[i := p.(dwSendCount := (p.dwSendCount + 1) % M,
                                                     dwRealQuotas := (p.dwRealQuotas - 1) % M)];
          m_dwTotalQuotas := (m_dwTotalQuotas - 1) % M;
          return Some(p.address);
        }
        seed := seed - p.dwRealQuotas;
      }
      return None;
    }

    /** A whole epoch of draws, with no refill in between: whatever the seeds, every address is selected exactly
        as often as its point had quotas at the start, and in the end nothing is left. */
    method Epoch(seeds: seq<nat>) returns (addresses: seq<nat>)
      requires Valid() && m_dwTotalQuotas == Sum(m_stServicesMap)
      requires Draws(Sum(m_stServicesMap), seeds) && |seeds| == Sum(m_stServicesMap)
      modifies `m_dwTotalQuotas, `m_stServicesMap
      ensures Valid() && m_dwTotalQuotas == 0 && forall p :: p in m_stServicesMap ==> p.dwRealQuotas == 0
      ensures forall i :: 0 <= i < |old(m_stServicesMap)| ==>
                Count(addresses, old(m_stServicesMap)[i].address) == old(m_stServicesMap)[i].dwRealQuotas
      ensures |addresses| == old(m_dwTotalQuotas)
    {
      hide Ordered, Bounded, Sum, Pick, Picks, Addresses, Take, Draws, Count;
      addresses := [];
      ghost var start := m_stServicesMap;
      for i := 0 to |seeds|
        invariant Valid() && m_dwTotalQuotas == Sum(m_stServicesMap) == |seeds| - i
        invariant Draws(Sum(m_stServicesMap), seeds[i..]) && |addresses| == i
        invariant Addresses(start, Picks(start, seeds))
               == addresses + Addresses(m_stServicesMap, Picks(m_stServicesMap, seeds[i..]))
      {
        ghost var points := m_stServicesMap;
        ghost var j := DrawsOn(points, seeds[i..]);
        TakeEffect(points, j);
        var address := Draw(seeds[i]);
        assert seeds[i..][1..] == seeds[i + 1..];
        addresses := addresses + [address.value];
      }
      EpochEnds(start, m_stServicesMap, seeds, addresses);
    }

    /** Refills when the epoch is used up or the period is over. */
    method Prepare(now: int)
      requires Valid() && Conserved()
      modifies this
      ensures Valid() && Conserved()
      ensures Prepared(old(m_stServicesMap), old(m_dwTotalQuotas), now - old(m_LastTimestamp), m_stServicesMap)
      ensures m_LastTimestamp == if now - old(m_LastTimestamp) > RESET_TIME then now else old(m_LastTimestamp)
    {
      hide Ordered, Bounded, Sum, Refilled;
      var bReset := now - m_LastTimestamp > RESET_TIME;
      if m_dwTotalQuotas == 0 || bReset {
        Refill(bReset);
        if bReset {
          m_LastTimestamp := now;
        }
      }
    }

    /** Route: `rand` is the value of rand() in this call. The draw takes exactly one quota of one point, and the
        books stay balanced, if and only if its seed is neither 0 on a first point without quotas nor past the
        total. */
    method Route(now: int, rand: nat) returns (address: Option<nat>, ghost dwSeed: nat,
        ghost refilled: seq<ServicePoint>)
      requires Valid() && Conserved() && rand <= RAND_MAX
      modifies this
      ensures Prepared(old(m_stServicesMap), old(m_dwTotalQuotas), now - old(m_LastTimestamp), refilled)
      ensures old(m_dwTotalQuotas) != 0 && now - old(m_LastTimestamp) <= 10 ==> refilled == old(m_stServicesMap)
      ensures old(m_dwTotalQuotas) == 0 || now - old(m_LastTimestamp) > 10 ==>
                && |refilled| == |old(m_stServicesMap)|
                && forall i :: 0 <= i < |refilled| ==>
                     Renewal(old(m_stServicesMap)[i], now - old(m_LastTimestamp) > 10, refilled[i])
      ensures Ordered(refilled) && Bounded(refilled)
      ensures dwSeed == (Sum(refilled) + 1) % M * rand / RAND_MAX <= Sum(refilled) + 1
      ensures m_LastTimestamp == if now - old(m_LastTimestamp) > RESET_TIME then now else old(m_LastTimestamp)
      ensures match Pick(refilled, dwSeed)
              case None => address == None && m_stServicesMap == refilled
              case Some(i) => address == Some(refilled[i].address) && m_stServicesMap == Take(refilled, i)
      ensures m_dwTotalQuotas == (Sum(refilled) - (if address == None then 0 else 1)) % M
      ensures address == None ==> Valid() && Conserved()
      ensures (address.Some? && Valid() && Conserved() && Sum(m_stServicesMap) == Sum(refilled) - 1)
         <==> 1 <= dwSeed <= Sum(refilled) || (dwSeed == 0 && refilled != [] && refilled[0].dwRealQuotas >= 1)
    {
      hide Ordered, Bounded, Sum, Refilled, Renewal, Pick, Take, Prepared;
      Prepare(now);
      refilled := m_stServicesMap;
      PreparedMeans(old(m_stServicesMap), old(m_dwTotalQuotas), now - old(m_LastTimestamp), refilled);
      AddMod(Sum(refilled), 1);
      SeedInRange((Sum(refilled) + 1) % M, rand);
      var seed := (m_dwTotalQuotas + 1) % M * rand / RAND_MAX;
      dwSeed := seed;
      address := Draw(seed);
      DrawTakesAQuota(refilled, seed);
      if address.Some? {
        TakeEffect(refilled, Pick(refilled, seed).value);
        if 0 < Sum(refilled) {
          SubMod(Sum(refilled), 1);
        }
      }
    }

    method Renew(point: ServicePoint, reset: bool) returns (p: ServicePoint)
      ensures p == Refilled(point, reset)
    {
      p := point;
      if reset {
        p := ResetPoint(p);
      }
      p := p.(dwRealQuotas := p.dwCurrentQuotas);
    }
  }

  /** The points a draw sees: untouched, or all refilled when nothing was left or the period is over. */
  ghost predicate Prepared(points: seq<ServicePoint>, total: nat, elapsed: int, seen: seq<ServicePoint>) {
    if total == 0 || elapsed > RESET_TIME then Renewed(points, seen, elapsed > RESET_TIME) else seen == points
  }

  ghost predicate Renewed(points: seq<ServicePoint>, refilled: seq<ServicePoint>, reset: bool) {
    |refilled| == |points| && forall i :: 0 <= i < |points| ==> refilled[i] == Refilled(points[i], reset)
  }

  /** The seeds Route draws over an epoch of `total` quotas. */
  function SeedsOf(total: nat, rands: seq<nat>): (seeds: seq<nat>)
    requires |rands| <= total < M
    ensures |seeds| == |rands| && forall i :: 0 <= i < |rands| ==> seeds[i] == (total - i + 1) % M * rands[i] / RAND_MAX
  {
    seq(|rands|, i requires 0 <= i < |rands| => (total - i + 1) % M * rands[i] / RAND_MAX)
  }

  lemma AllRenewed(points: seq<ServicePoint>, refilled: seq<ServicePoint>, reset: bool)
    requires Renewed(points, refilled, reset)
    ensures forall i :: 0 <= i < |points| ==> Renewal(points[i], reset, refilled[i])
  {
    hide Refilled, Renewal;
    forall i | 0 <= i < |points|
      ensures Renewal(points[i], reset, refilled[i])
    {
      RefilledRenews(points[i], reset);
    }
  }

  /** The points a draw sees, point by point: after 10 seconds every one is adjusted. */
  lemma PreparedMeans(points: seq<ServicePoint>, total: nat, elapsed: int, seen: seq<ServicePoint>)
    requires Prepared(points, total, elapsed, seen)
    ensures total != 0 && elapsed <= 10 ==> seen == points
    ensures total == 0 || elapsed > 10 ==>
              |seen| == |points| && forall i :: 0 <= i < |points| ==> Renewal(points[i], elapsed > 10, seen[i])
  {
    hide Renewal;
    if total == 0 || elapsed > 10 {
      AllRenewed(points, seen, elapsed > 10);
    }
  }

  lemma EpochEnds(start: seq<ServicePoint>, end: seq<ServicePoint>, seeds: seq<nat>, addresses: seq<nat>)
    requires Ordered(start) && Bounded(start) && Draws(Sum(start), seeds) && |seeds| == Sum(start) && Sum(end) == 0
    requires Addresses(start, Picks(start, seeds)) == addresses + Addresses(end, Picks(end, seeds[|seeds|..]))
    ensures forall i :: 0 <= i < |start| ==> Count(addresses, start[i].address) == start[i].dwRealQuotas
    ensures forall p :: p in end ==> p.dwRealQuotas == 0
  {
    hide Sum, Draws, Pick, Take, Count;
    NothingLeft(end);
    assert seeds[|seeds|..] == [];
    assert Addresses(start, Picks(start, seeds)) == addresses;
    forall i | 0 <= i < |start|
      ensures Count(addresses, start[i].address) == start[i].dwRealQuotas
    {
      EpochIsExact(start, seeds, i);
      AddressesCount(start, Picks(start, seeds), i);
    }
  }

  lemma SeedInRange(n: nat, rand: nat)
    requires rand <= RAND_MAX
    ensures n * rand / RAND_MAX <= n
  {
    assert n * rand == n * RAND_MAX - n * (RAND_MAX - rand);
    assert 0 <= n * (RAND_MAX - rand);
  }

  /** Taking a quota that is there keeps everything sound; taking one that is not wraps it to 2^32 - 1. */
  lemma TakeEffect(points: seq<ServicePoint>, i: nat)
    requires Ordered(points) && Bounded(points) && i < |points|
    ensures points[i].dwRealQuotas >= 1 ==>
              Ordered(Take(points, i)) && Bounded(Take(points, i)) && Sum(Take(points, i)) == Sum(points) - 1
    ensures points[i].dwRealQuotas == 0 ==> Sum(Take(points, i)) == Sum(points) + M - 1
  {
    hide Sum;
    SumWith(points, i, Take(points, i)[i]);
    TakeOrdered(points, i);
    if points[i].dwRealQuotas >= 1 {
      TakeBounded(points, i);
    }
  }

  lemma TakeOrdered(points: seq<ServicePoint>, i: nat)
    requires Ordered(points) && i < |points|
    ensures Ordered(Take(points, i))
  {
  }

  lemma TakeBounded(points: seq<ServicePoint>, i: nat)
    requires Bounded(points) && i < |points| && points[i].dwRealQuotas >= 1
    ensures Bounded(Take(points, i))
  {
  }

  lemma StillBounded(points: seq<ServicePoint>, refilled: seq<ServicePoint>, reset: bool)
    requires Ordered(points) && Bounded(points) && |refilled| == |points|
    requires forall i :: 0 <= i < |points| ==> refilled[i] == Refilled(points[i], reset)
    ensures Ordered(refilled) && Bounded(refilled)
  {
  }

  // ----- seeds that go wrong

  /** The largest rand() selects nothing, whatever the points. */
  lemma RandMaxMisses(points: seq<ServicePoint>)
    requires Sum(points) + 1 < M
    ensures Pick(points, (Sum(points) + 1) % M * RAND_MAX / RAND_MAX) == None
  {
    var n := Sum(points) + 1;
    assert n * RAND_MAX / RAND_MAX == n;
    DrawTakesAQuota(points, n);
  }

  lemma TwoPoints(points: seq<ServicePoint>, p: ServicePoint, q: ServicePoint)
    requires Ordered(points) && p.address > q.address && |points| == 2 && p in points && q in points
    ensures points == [p, q]
  {
    assert points[0].address > points[1].address;
    assert points == [points[0], points[1]];
  }

  lemma SumOfTwo(p: ServicePoint, q: ServicePoint)
    ensures Sum([p, q]) == p.dwRealQuotas + q.dwRealQuotas
  {
    assert [p, q][1..] == [q] && [q][1..] == [];
    assert Sum([q]) == q.dwRealQuotas;
  }

  /** What three draws make of two points of quota 1. */
  lemma ThreeDraws(p: ServicePoint, q: ServicePoint)
    requires p.dwRealQuotas == p.dwCurrentQuotas == 1 && q.dwRealQuotas == 1
    ensures Sum([p, q]) == 2 && Pick([p, q], 3) == None && Pick([p, q], 1) == Some(0)
    ensures var dry := Take([p, q], 0);
            && Sum(dry) == 1 && dry[0].address == p.address && Pick(dry, 0) == Some(0)
            && |Take(dry, 0)| == 2 && Take(dry, 0)[0].dwRealQuotas == M - 1 && !Bounded(Take(dry, 0))
  {
    assert [p, q][1..] == [q] && [q][1..] == [];
    SumOfTwo(p, q);
    assert Pick([q], 2) == None;
    var dry := Take([p, q], 0);
    assert dry == [dry[0], q];
    SumOfTwo(dry[0], q);
  }

  /** Two points of quota 1: a rand() of RAND_MAX selects nobody; one that seeds 1 takes the quota of the first; a
      rand() of 0 then selects the first again, and its quota wraps to 2^32 - 1. */
  method WrongSeeds(a: nat, b: nat, now: int)
    returns (lb: LoadBalance, missed: Option<nat>, good: Option<nat>, again: Option<nat>)
    requires a > b
    ensures missed == None && good == again == Some(a)
    ensures |lb.m_stServicesMap| == 2 && lb.m_stServicesMap[0].dwRealQuotas == 0xFFFF_FFFF && !lb.Valid()
  {
    hide Ordered, Bounded, Sum, Pick, Take;
    lb := TwoServices(a, b, now);
    ghost var p, q := ServicePoint(a, 0, 0, 1, 1, 1), ServicePoint(b, 0, 0, 1, 1, 1);
    ThreeDraws(p, q);
    ghost var seed, seen;
    missed, seed, seen := lb.Route(now, RAND_MAX);
    good, seed, seen := lb.Route(now, 1_000_000_000);
    assert seed == 1 && lb.m_stServicesMap == Take([p, q], 0);
    again, seed, seen := lb.Route(now, 0);
    assert lb.m_stServicesMap == Take(Take([p, q], 0), 0);
  }

  method TwoServices(a: nat, b: nat, now: int) returns (lb: LoadBalance)
    requires a > b
    ensures fresh(lb) && lb.Valid() && lb.Conserved() && lb.m_LastTimestamp == now
    ensures lb.m_stServicesMap == [ServicePoint(a, 0, 0, 1, 1, 1), ServicePoint(b, 0, 0, 1, 1, 1)]
  {
    hide Bounded, Sum;
    lb := new LoadBalance(now);
    lb.AddServicePoint(a, 1);
    ghost var p, q := ServicePoint(a, 0, 0, 1, 1, 1), ServicePoint(b, 0, 0, 1, 1, 1);
    assert p in lb.m_stServicesMap && lb.m_stServicesMap == [p];
    lb.AddServicePoint(b, 1);
    TwoPoints(lb.m_stServicesMap, p, q);
  }
}

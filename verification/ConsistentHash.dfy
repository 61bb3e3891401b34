/** The consistent-hash ring: nodes own points of the ring, and a key belongs to the node of the first point at or
    after it. */
module ConsistentHashing {
  import opened Wrappers
  import Bytes

  /** The template parameters and the hash functions, about which nothing is assumed. */
  datatype Hashing<!Key> = Hashing(h: Key -> nat, h2: nat -> nat, virtualSize: nat, alignSize: nat) {
    ghost predicate Usable() {
      0 < alignSize
    }

    function Align(n: nat): nat
      requires Usable()
    {
      n / alignSize * alignSize
    }

    /** The i-th virtual point of a node: hash of the point before. */
    function Chain(key: Key, i: nat): nat
      requires Usable()
    {
      if i == 0 then Align(h(key)) else Align(h2(Chain(key, i - 1)))
    }

    /** The first `count` virtual points, and the first one in any case. */
    ghost function Points(key: Key, count: nat): set<nat>
      requires Usable()
    {
      set i: nat | i < (if count == 0 then 1 else count) :: Chain(key, i)
    }

    /** The points Insert claims. */
    ghost function Claimed(key: Key, quotas: nat): set<nat>
      requires Usable()
    {
      Points(key, virtualSize * quotas)
    }

    /** The points Delete drops, whatever the quotas were. */
    ghost function Dropped(key: Key): set<nat>
      requires Usable()
    {
      Points(key, virtualSize)
    }

    lemma PointsGrow(key: Key, n: nat, m: nat)
      requires Usable() && n <= m
      ensures Points(key, n) <= Points(key, m)
    {
    }

    /** A node of quota 0 or 1 claims nothing that Delete does not drop. */
    lemma SmallQuota(key: Key, quotas: nat)
      requires Usable() && quotas <= 1
      ensures Claimed(key, quotas) <= Dropped(key)
    {
      PointsGrow(key, virtualSize * quotas, virtualSize);
    }

    lemma FirstPoint(key: Key)
      requires Usable()
      ensures Points(key, 0) == Points(key, 1) == {Chain(key, 0)}
    {
    }

    lemma NextPoint(key: Key, i: nat)
      requires Usable() && 0 < i
      ensures Points(key, i + 1) == Points(key, i) + {Chain(key, i)}
    {
    }
  }

  // ----- where the points lie

  /** p is the last multiple of a at or before n. */
  predicate Below(a: nat, n: nat, p: nat)
    requires 0 < a
  {
    p % a == 0 && p <= n < p + a
  }

  /** The points of a node, one after the other: the first is the aligned hash of the key, every other one the aligned
      hash of the one before. */
  ghost predicate Spaced<Key>(g: Hashing<Key>, key: Key, chain: seq<nat>)
    requires g.Usable()
  {
    && chain != [] && Below(g.alignSize, g.h(key), chain[0])
    && forall i :: 0 < i < |chain| ==> Below(g.alignSize, g.h2(chain[i - 1]), chain[i])
  }

  lemma AlignIsBelow<Key>(g: Hashing<Key>, n: nat)
    requires g.Usable()
    ensures Below(g.alignSize, n, g.Align(n))
  {
    Bytes.ModUnique(n / g.alignSize * g.alignSize, g.alignSize, n / g.alignSize, 0);
  }

  /** There is only one such point, hence only one such chain of a length. */
  lemma BelowOnce(a: nat, n: nat, p: nat, q: nat)
    requires 0 < a && Below(a, n, p) && Below(a, n, q)
    ensures p == q
  {
    NoMultipleBetween(a, p, q);
    NoMultipleBetween(a, q, p);
  }

  lemma NoMultipleBetween(a: nat, p: nat, q: nat)
    requires 0 < a && p % a == 0 && q % a == 0 && q < p + a
    ensures q <= p
  {
    if p < q {
      Bytes.ModUnique(q, a, p / a, q - p);
    }
  }

  lemma {:induction false} SpacedOnce<Key>(g: Hashing<Key>, key: Key, chain: seq<nat>, other: seq<nat>, i: nat)
    requires g.Usable() && Spaced(g, key, chain) && Spaced(g, key, other) && i < |chain| && i < |other|
    ensures chain[i] == other[i]
  {
    if i == 0 {
      BelowOnce(g.alignSize, g.h(key), chain[0], other[0]);
    } else {
      SpacedOnce(g, key, chain, other, i - 1);
      BelowOnce(g.alignSize, g.h2(chain[i - 1]), chain[i], other[i]);
    }
  }

  /** The points of a node are such a chain. */
  lemma PointsAreSpaced<Key>(g: Hashing<Key>, key: Key, count: nat) returns (chain: seq<nat>)
    requires g.Usable()
    ensures |chain| == (if count == 0 then 1 else count) && Spaced(g, key, chain)
    ensures forall k :: k in g.Points(key, count) <==> k in chain
  {
    hide Hashing.Align, Below;
    chain := seq(if count == 0 then 1 else count, (i: nat) => g.Chain(key, i));
    AlignIsBelow(g, g.h(key));
    forall i | 0 < i < |chain|
      ensures Below(g.alignSize, g.h2(chain[i - 1]), chain[i])
    {
      AlignIsBelow(g, g.h2(g.Chain(key, i - 1)));
    }
    forall k | k in g.Points(key, count)
      ensures k in chain
    {
      var i: nat :| i < |chain| && g.Chain(key, i) == k;
      assert chain[i] == k;
    }
  }

  // ----- rings as values

  /** Insertion that keeps the points already owned. */
  ghost function Added<P>(ring: map<nat, P>, points: set<nat>, owner: P): map<nat, P> {
    ring + map k | k in points - ring.Keys :: owner
  }

  lemma AddedTwice<P>(ring: map<nat, P>, points: set<nat>, k: nat, owner: P)
    ensures Added(Added(ring, points, owner), {k}, owner) == Added(ring, points + {k}, owner)
  {
  }

  lemma AddedMeans<P>(ring: map<nat, P>, points: set<nat>, owner: P)
    ensures forall k :: k in Added(ring, points, owner) <==> k in ring || k in points
    ensures forall k :: k in Added(ring, points, owner) ==>
              Added(ring, points, owner)[k] == if k in ring then ring[k] else owner
  {
  }

  lemma AddedOwners<P>(ring: map<nat, P>, points: set<nat>, owner: P)
    ensures Added(ring, points, owner).Values <= ring.Values + {owner}
  {
  }

  /** `at` is the first point at or after `k`. */
  ghost predicate Ceiling<P>(ring: map<nat, P>, k: nat, at: nat) {
    at in ring && k <= at && forall j: nat :: j in ring && k <= j ==> at <= j
  }

  /** The owner of position k, if any point follows. */
  ghost function Owner<P>(ring: map<nat, P>, k: nat): Option<P> {
    if exists at: nat :: Ceiling(ring, k, at) then
      var at: nat :| Ceiling(ring, k, at);
      Some(ring[at])
    else
      None
  }

  lemma SameCeiling<P>(ring: map<nat, P>, k: nat, x: nat, at: nat)
    requires Ceiling(ring, k, x) && Ceiling(ring, k, at)
    ensures x == at
  {
  }

  lemma OwnerIs<P>(ring: map<nat, P>, k: nat, at: nat)
    requires Ceiling(ring, k, at)
    ensures Owner(ring, k) == Some(ring[at])
  {
    var x: nat :| Ceiling(ring, k, x) && Owner(ring, k) == Some(ring[x]);
    SameCeiling(ring, k, x, at);
  }

  lemma {:induction false} Least(s: set<nat>) returns (least: nat)
    requires s != {}
    ensures least in s && forall j :: j in s ==> least <= j
    decreases |s|
  {
    least :| least in s;
    if s != {least} {
      var k := Least(s - {least});
      assert forall j :: j in s ==> j == least || j in s - {least};
      if k < least {
        least := k;
      }
    }
  }

  /** Some point follows position k; then one follows first. */
  lemma First<P>(ring: map<nat, P>, k: nat, some: nat) returns (at: nat)
    requires some in ring && k <= some
    ensures Ceiling(ring, k, at) && Owner(ring, k) == Some(ring[at])
  {
    var after := set j: nat | j in ring && k <= j;
    assert some in after;
    at := Least(after);
    forall j: nat | j in ring && k <= j
      ensures at <= j
    {
      assert j in after;
    }
    OwnerIs(ring, k, at);
  }

  /** A position is without an owner exactly when it lies past the last point: the ring does not wrap around. */
  lemma UnownedIsPastTheEnd<P>(ring: map<nat, P>, k: nat)
    ensures Owner(ring, k) == None <==> forall j: nat :: j in ring ==> j < k
  {
    if j: nat :| j in ring && k <= j {
      var at := First(ring, k, j);
    }
  }

  // ----- stability

  /** Position k falls to a new point p of `points`: no older point lies between. */
  ghost predicate Captures<P>(ring: map<nat, P>, points: set<nat>, k: nat, p: nat) {
    p in points - ring.Keys && k <= p && forall j: nat :: j in ring && k <= j ==> p < j
  }

  /** Adding points changes the owner of exactly the positions that fall to one of them, and to nobody but the new
      owner. */
  lemma AddedIsStable<P>(ring: map<nat, P>, points: set<nat>, owner: P, k: nat)
    ensures Owner(Added(ring, points, owner), k)
            == if exists p: nat :: Captures(ring, points, k, p) then Some(owner) else Owner(ring, k)
  {
    var after := Added(ring, points, owner);
    if j: nat :| j in after && k <= j {
      var at := First(after, k, j);
      if at in ring {
        assert Ceiling(ring, k, at);
        OwnerIs(ring, k, at);
        assert forall p: nat :: Captures(ring, points, k, p) ==> p in after && p < at;
      } else {
        assert Captures(ring, points, k, at);
      }
    } else {
      UnownedIsPastTheEnd(after, k);
      UnownedIsPastTheEnd(ring, k);
      assert forall p: nat :: p in points - ring.Keys ==> p in after;
    }
  }

  /** Removing points changes the owner of no position whose owner loses none of them. */
  lemma RemovedIsStable<P>(ring: map<nat, P>, points: set<nat>, k: nat)
    requires forall p :: p in points && p in ring ==> Owner(ring, k) != Some(ring[p])
    ensures Owner(ring - points, k) == Owner(ring, k)
  {
    UnownedIsPastTheEnd(ring, k);
    UnownedIsPastTheEnd(ring - points, k);
    if Owner(ring, k) != None {
      var at: nat :| Ceiling(ring, k, at) && Owner(ring, k) == Some(ring[at]);
      assert at !in points;
      OwnerIs(ring - points, k, at);
    }
  }

  /** Dropping points right after adding some restores the ring exactly when nothing older is dropped and nothing
      new survives. */
  lemma RestoredIff<P>(ring: map<nat, P>, claimed: set<nat>, dropped: set<nat>, owner: P)
    ensures Added(ring, claimed, owner) - dropped == ring <==> dropped !! ring.Keys && claimed - dropped <= ring.Keys
  {
    var end := Added(ring, claimed, owner) - dropped;
    assert end.Keys == (ring.Keys + claimed) - dropped;
    if dropped !! ring.Keys && claimed - dropped <= ring.Keys {
      assert end.Keys == ring.Keys;
      assert forall k :: k in ring ==> end[k] == ring[k];
    }
    if end == ring {
      forall k | k in dropped
        ensures k !in ring.Keys
      {
        assert k !in end.Keys;
      }
      forall k | k in claimed - dropped
        ensures k in ring.Keys
      {
        assert k in end.Keys;
      }
    }
  }

  /** Delete undoes Insert exactly when none of the points it drops was taken before and every point the node has
      beyond those was; for a node of quota 1, or 0, exactly when none was taken. */
  lemma DeleteUndoesInsert<Key, P>(g: Hashing<Key>, ring: map<nat, P>, key: Key, quotas: nat, owner: P)
    requires g.Usable()
    ensures Added(ring, g.Claimed(key, quotas), owner) - g.Dropped(key) == ring
            <==> g.Dropped(key) !! ring.Keys && g.Claimed(key, quotas) - g.Dropped(key) <= ring.Keys
    ensures quotas <= 1 ==>
            (Added(ring, g.Claimed(key, quotas), owner) - g.Dropped(key) == ring <==> g.Dropped(key) !! ring.Keys)
  {
    RestoredIff(ring, g.Claimed(key, quotas), g.Dropped(key), owner);
    if quotas <= 1 {
      g.SmallQuota(key, quotas);
    }
  }

  /** Two virtual points, slots of 10, and a hash that steps on by one slot. */
  function Stepping(): Hashing<nat> {
    Hashing((key: nat) => key, (n: nat) => n + 10, 2, 10)
  }

  lemma {:induction false} SteppingChain(n: nat, i: nat)
    ensures Stepping().Chain(10 * n, i) == 10 * (n + i)
  {
    if 0 < i {
      SteppingChain(n, i - 1);
    }
  }

  lemma SteppingPoints()
    ensures Stepping().Points(0, 2) == {0, 10} && Stepping().Points(0, 4) == {0, 10, 20, 30}
    ensures Stepping().Points(10, 2) == {10, 20} && Stepping().Chain(10, 0) == 10
  {
    hide Hashing.Points, Hashing.Chain;
    var g := Stepping();
    SteppingChain(0, 0);
    SteppingChain(0, 1);
    SteppingChain(0, 2);
    SteppingChain(0, 3);
    SteppingChain(1, 0);
    SteppingChain(1, 1);
    g.FirstPoint(0);
    g.NextPoint(0, 1);
    g.NextPoint(0, 2);
    g.NextPoint(0, 3);
    g.FirstPoint(10);
    g.NextPoint(10, 1);
  }

  /** With a quota of 2 there, Delete leaves half of the points behind. */
  lemma LargeQuotaLeavesPoints<P>(owner: P)
    ensures (Added(map[], Stepping().Claimed(0, 2), owner) - Stepping().Dropped(0)).Keys == {20, 30}
  {
    hide Hashing.Points, Hashing.Chain;
    SteppingPoints();
    assert (Added(map[], Stepping().Claimed(0, 2), owner) - Stepping().Dropped(0)).Keys == {0, 10, 20, 30} - {0, 10};
  }

  // ----- whole runs

  datatype Node<P> = Node(quotas: nat, point: P)

  datatype Op<Key, P> = Insert(key: Key, quotas: nat, point: P) | Delete(key: Key)

  ghost function Step<Key, P>(g: Hashing<Key>, ring: map<nat, P>, op: Op<Key, P>): map<nat, P>
    requires g.Usable()
  {
    match op
    case Insert(key, quotas, point) => Added(ring, g.Claimed(key, quotas), point)
    case Delete(key) => ring - g.Dropped(key)
  }

  ghost function Joined<Key, P>(nodes: map<Key, Node<P>>, op: Op<Key, P>): map<Key, Node<P>> {
    match op
    case Insert(key, quotas, point) => nodes[key := Node(quotas, point)]
    case Delete(key) => nodes - {key}
  }

  /** Points a node may touch, inserted or deleted. */
  ghost function Reach<Key>(g: Hashing<Key>, key: Key, quotas: nat): set<nat>
    requires g.Usable()
  {
    g.Claimed(key, quotas) + g.Dropped(key)
  }

  /** No two nodes share a point. */
  ghost predicate Apart<Key, P>(g: Hashing<Key>, nodes: map<Key, Node<P>>)
    requires g.Usable()
  {
    forall a, b :: a in nodes && b in nodes && a != b ==> Reach(g, a, nodes[a].quotas) !! Reach(g, b, nodes[b].quotas)
  }

  /** The ring consists of the points of these nodes. */
  ghost predicate Consists<Key, P>(g: Hashing<Key>, nodes: map<Key, Node<P>>, ring: map<nat, P>)
    requires g.Usable()
  {
    && (forall n, k :: n in nodes && k in g.Claimed(n, nodes[n].quotas) ==> k in ring && ring[k] == nodes[n].point)
    && forall k :: k in ring ==> exists n :: n in nodes && k in g.Claimed(n, nodes[n].quotas)
  }

  lemma SameNodesSamePoints<Key, P>(g: Hashing<Key>, nodes: map<Key, Node<P>>, r: map<nat, P>, s: map<nat, P>, k: nat)
    requires g.Usable() && Consists(g, nodes, r) && Consists(g, nodes, s) && k in r
    ensures k in s && r[k] == s[k]
  {
    var n :| n in nodes && k in g.Claimed(n, nodes[n].quotas);
  }

  /** A ring is determined by its nodes: the order in which they came and went leaves no trace. */
  lemma SameNodesSameRing<Key, P>(g: Hashing<Key>, nodes: map<Key, Node<P>>, r: map<nat, P>, s: map<nat, P>)
    requires g.Usable() && Consists(g, nodes, r) && Consists(g, nodes, s)
    ensures r == s
  {
    forall k | k in r
      ensures k in s && r[k] == s[k]
    {
      SameNodesSamePoints(g, nodes, r, s, k);
    }
    forall k | k in s
      ensures k in r && r[k] == s[k]
    {
      SameNodesSamePoints(g, nodes, s, r, k);
    }
  }

  /** An operation that shares no point with another node. Only nodes of quota 0 or 1 may be deleted. */
  ghost predicate Allowed<Key, P>(g: Hashing<Key>, nodes: map<Key, Node<P>>, op: Op<Key, P>)
    requires g.Usable()
  {
    match op
    case Insert(key, quotas, point) => key !in nodes && Apart(g, nodes[key := Node(quotas, point)])
    case Delete(key) => key in nodes && nodes[key].quotas <= 1
  }

  lemma NewPointsAreFree<Key, P>(g: Hashing<Key>, nodes: map<Key, Node<P>>, ring: map<nat, P>, op: Op<Key, P>)
    requires g.Usable() && Consists(g, nodes, ring) && Allowed(g, nodes, op) && op.Insert?
    ensures g.Claimed(op.key, op.quotas) !! ring.Keys
  {
    var now := Joined(nodes, op);
    forall k | k in ring
      ensures k !in g.Claimed(op.key, op.quotas)
    {
      var m :| m in nodes && k in g.Claimed(m, nodes[m].quotas);
      assert k in Reach(g, m, now[m].quotas);
      assert k !in Reach(g, op.key, now[op.key].quotas);
    }
  }

  lemma InsertConsists<Key, P>(g: Hashing<Key>, nodes: map<Key, Node<P>>, ring: map<nat, P>, op: Op<Key, P>)
    requires g.Usable() && Consists(g, nodes, ring) && Allowed(g, nodes, op) && op.Insert?
    ensures Consists(g, Joined(nodes, op), Step(g, ring, op))
  {
    hide Hashing.Points;
    var now := Joined(nodes, op);
    var after := Step(g, ring, op);
    forall n, k | n in now && k in g.Claimed(n, now[n].quotas)
      ensures k in after && after[k] == now[n].point
    {
      if n == op.key {
        NewPointsAreFree(g, nodes, ring, op);
      }
    }
    forall k | k in after
      ensures exists n :: n in now && k in g.Claimed(n, now[n].quotas)
    {
      if k in ring {
        var n :| n in nodes && k in g.Claimed(n, nodes[n].quotas);
        assert n in now && k in g.Claimed(n, now[n].quotas);
      } else {
        assert op.key in now && k in g.Claimed(op.key, now[op.key].quotas);
      }
    }
  }

  lemma DeleteConsists<Key, P>(g: Hashing<Key>, nodes: map<Key, Node<P>>, ring: map<nat, P>, op: Op<Key, P>)
    requires g.Usable() && Consists(g, nodes, ring) && Apart(g, nodes) && Allowed(g, nodes, op) && op.Delete?
    ensures Consists(g, Joined(nodes, op), Step(g, ring, op))
  {
    hide Hashing.Points;
    var now := Joined(nodes, op);
    var after := Step(g, ring, op);
    g.SmallQuota(op.key, nodes[op.key].quotas);
    forall n, k | n in now && k in g.Claimed(n, now[n].quotas)
      ensures k in after && after[k] == now[n].point
    {
      assert k in Reach(g, n, nodes[n].quotas);
      assert k !in Reach(g, op.key, nodes[op.key].quotas);
    }
    forall k | k in after
      ensures exists n :: n in now && k in g.Claimed(n, now[n].quotas)
    {
      var n :| n in nodes && k in g.Claimed(n, nodes[n].quotas);
      assert n in now && k in g.Claimed(n, now[n].quotas);
    }
  }

  /** Deleting a node changes the owner of no position that the node did not own. */
  lemma DeleteMovesOnlyItsKeys<Key, P>(g: Hashing<Key>, nodes: map<Key, Node<P>>, ring: map<nat, P>, key: Key, k: nat)
    requires g.Usable() && Consists(g, nodes, ring) && Apart(g, nodes) && key in nodes
    requires Owner(ring, k) != Some(nodes[key].point)
    ensures Owner(ring - g.Dropped(key), k) == Owner(ring, k)
  {
    forall p | p in g.Dropped(key) && p in ring
      ensures ring[p] == nodes[key].point
    {
      var n :| n in nodes && p in g.Claimed(n, nodes[n].quotas);
      assert p in Reach(g, n, nodes[n].quotas) && p in Reach(g, key, nodes[key].quotas);
    }
    RemovedIsStable(ring, g.Dropped(key), k);
  }

  ghost function Ring<Key, P>(g: Hashing<Key>, run: seq<Op<Key, P>>): map<nat, P>
    requires g.Usable()
  {
    if run == [] then map[] else Step(g, Ring(g, run[..|run| - 1]), run[|run| - 1])
  }

  ghost function Members<Key, P>(run: seq<Op<Key, P>>): map<Key, Node<P>> {
    if run == [] then map[] else Joined(Members(run[..|run| - 1]), run[|run| - 1])
  }

  ghost predicate AllowedRun<Key, P>(g: Hashing<Key>, run: seq<Op<Key, P>>)
    requires g.Usable()
  {
    run != [] ==> AllowedRun(g, run[..|run| - 1]) && Allowed(g, Members(run[..|run| - 1]), run[|run| - 1])
  }

  /** Over every run the ring consists of the points of its present members. */
  lemma {:induction false} RunConsists<Key, P>(g: Hashing<Key>, run: seq<Op<Key, P>>)
    requires g.Usable() && AllowedRun(g, run)
    ensures Consists(g, Members(run), Ring(g, run)) && Apart(g, Members(run))
  {
    if run != [] {
      var most, op := run[..|run| - 1], run[|run| - 1];
      RunConsists(g, most);
      if op.Insert? {
        InsertConsists(g, Members(most), Ring(g, most), op);
      } else {
        DeleteConsists(g, Members(most), Ring(g, most), op);
      }
    }
  }

  /** Two runs that leave the same members leave every key with the same owner. */
  lemma MembersDecide<Key, P>(g: Hashing<Key>, run: seq<Op<Key, P>>, other: seq<Op<Key, P>>, k: nat)
    requires g.Usable() && AllowedRun(g, run) && AllowedRun(g, other) && Members(run) == Members(other)
    ensures Ring(g, run) == Ring(g, other) && Owner(Ring(g, run), k) == Owner(Ring(g, other), k)
  {
    RunConsists(g, run);
    RunConsists(g, other);
    SameNodesSameRing(g, Members(run), Ring(g, run), Ring(g, other));
  }

  /** No two nodes share the object Insert made for them. */
  ghost predicate OwnObjects<Key, P>(nodes: map<Key, Node<P>>) {
    forall a, b :: a in nodes && b in nodes && a != b ==> nodes[a].point != nodes[b].point
  }

  /** Delete deletes the object at the first point of `key`, and another point that it does not drop has that
      object too. */
  ghost predicate Dangles<Key, P>(g: Hashing<Key>, ring: map<nat, P>, key: Key)
    requires g.Usable()
  {
    && g.Chain(key, 0) in ring
    && exists k :: k in ring && k !in g.Dropped(key) && ring[k] == ring[g.Chain(key, 0)]
  }

  lemma DanglesExactly<Key, P>(g: Hashing<Key>, ring: map<nat, P>, key: Key, live: set<P>, left: set<P>)
    requires g.Usable() && ring.Values <= live
    requires left == live - (if g.Chain(key, 0) in ring then {ring[g.Chain(key, 0)]} else {})
    ensures (ring - g.Dropped(key)).Values <= left <==> !Dangles(g, ring, key)
  {
    hide Hashing.Dropped, Hashing.Chain;
    var after := ring - g.Dropped(key);
    if Dangles(g, ring, key) {
      var k :| k in ring && k !in g.Dropped(key) && ring[k] == ring[g.Chain(key, 0)];
      assert k in after && after[k] in after.Values;
    } else {
      forall p | p in after.Values
        ensures p in left
      {
        var k :| k in after && after[k] == p;
        assert k in ring && ring[k] in ring.Values;
      }
    }
  }

  /** For nodes that share no point, that is the case exactly when Delete does not drop all points of the node. */
  lemma DanglesIff<Key, P>(g: Hashing<Key>, nodes: map<Key, Node<P>>, ring: map<nat, P>, key: Key)
    requires g.Usable() && Consists(g, nodes, ring) && OwnObjects(nodes) && key in nodes
    ensures Dangles(g, ring, key) <==> !(g.Claimed(key, nodes[key].quotas) <= g.Dropped(key))
    ensures nodes[key].quotas <= 1 ==> !Dangles(g, ring, key)
  {
    hide Hashing.Points;
    var claimed := g.Claimed(key, nodes[key].quotas);
    FirstIsClaimed(g, key, nodes[key].quotas);
    forall k | k in ring && ring[k] == nodes[key].point
      ensures k in claimed
    {
      var n :| n in nodes && k in g.Claimed(n, nodes[n].quotas);
      assert n == key;
    }
    if !(claimed <= g.Dropped(key)) {
      var k :| k in claimed && k !in g.Dropped(key);
      assert k in ring && ring[k] == ring[g.Chain(key, 0)];
    }
    if nodes[key].quotas <= 1 {
      g.SmallQuota(key, nodes[key].quotas);
    }
  }

  lemma FirstIsClaimed<Key>(g: Hashing<Key>, key: Key, quotas: nat)
    requires g.Usable()
    ensures g.Chain(key, 0) in g.Claimed(key, quotas)
  {
  }

  class PointT<Value(0)> {
    var Value: Value
  }

  class ConsistentHash<Key(==,!new), Value(0)> {
    const g: Hashing<Key>
    var m_stHashRing: map<nat, PointT<Value>>

    ghost var live: set<PointT<Value>>   // allocated and not deleted

    /** No point of the ring dangles. */
    ghost predicate Sound()
      reads this
    {
      m_stHashRing.Values <= live
    }

    constructor (g: Hashing<Key>)
      ensures this.g == g && m_stHashRing == map[] && live == {} && Sound()
    {
      this.g, m_stHashRing, live := g, map[], {};
    }

    /** Adds a node. Points already owned stay with their owners. */
    method Insert(key: Key, dwQuotas: nat) returns (pstPoint: PointT<Value>, ghost chain: seq<nat>)
      requires g.Usable()
      modifies this
      ensures fresh(pstPoint) && live == old(live) + {pstPoint}
      ensures m_stHashRing == Added(old(m_stHashRing), g.Claimed(key, dwQuotas), pstPoint)
      ensures Spaced(g, key, chain) && |chain| == if g.virtualSize * dwQuotas == 0 then 1 else g.virtualSize * dwQuotas
      ensures forall k :: k in m_stHashRing <==> k in old(m_stHashRing) || k in chain
      ensures forall k :: k in m_stHashRing ==>
                m_stHashRing[k] == if k in old(m_stHashRing) then old(m_stHashRing)[k] else pstPoint
      ensures old(Sound()) ==> Sound()
    {
      hide Hashing.Points, Added, Spaced;
      pstPoint := new PointT<Value>;
      live := live + {pstPoint};
      ClaimAll(key, g.virtualSize * dwQuotas, pstPoint);
      chain := PointsAreSpaced(g, key, g.virtualSize * dwQuotas);
      AddedMeans(old(m_stHashRing), g.Claimed(key, dwQuotas), pstPoint);
      AddedOwners(old(m_stHashRing), g.Claimed(key, dwQuotas), pstPoint);
    }

    /** Puts the object at the first `count` virtual points, and the first one in any case. */
    method ClaimAll(key: Key, count: nat, pstPoint: PointT<Value>)
      requires g.Usable()
      modifies `m_stHashRing
      ensures m_stHashRing == Added(old(m_stHashRing), g.Points(key, count), pstPoint)
    {
      hide Hashing.Points, Hashing.Align, Added;
      var ddwPointKey := g.Align(g.h(key));
      g.FirstPoint(key);
      PutNew(ddwPointKey, pstPoint);
      var i := 1;
      while i < count
        invariant 1 <= i && (i <= count || i == 1)
        invariant ddwPointKey == g.Chain(key, i - 1)
        invariant m_stHashRing == Added(old(m_stHashRing), g.Points(key, i), pstPoint)
      {
        ddwPointKey := g.Align(g.h2(ddwPointKey));
        PutNew(ddwPointKey, pstPoint);
        AddedTwice(old(m_stHashRing), g.Points(key, i), ddwPointKey, pstPoint);
        g.NextPoint(key, i);
        i := i + 1;
      }
    }

    /** insert of the map, which does not replace. */
    method PutNew(at: nat, pstPoint: PointT<Value>)
      modifies `m_stHashRing
      ensures m_stHashRing == Added(old(m_stHashRing), {at}, pstPoint)
    {
      if at !in m_stHashRing {
        m_stHashRing := m_stHashRing[at := pstPoint];
      }
    }

    /** Removes a node: deletes whatever object its first point has, and drops `virtualSize` points of its chain. */
    method Delete(key: Key) returns (ghost chain: seq<nat>)
      requires g.Usable()
      modifies this
      ensures m_stHashRing == old(m_stHashRing) - g.Dropped(key)
      ensures Spaced(g, key, chain) && |chain| == if g.virtualSize == 0 then 1 else g.virtualSize
      ensures forall k :: k in m_stHashRing <==> k in old(m_stHashRing) && k !in chain
      ensures forall k :: k in m_stHashRing ==> m_stHashRing[k] == old(m_stHashRing)[k]
      ensures live == old(live) - old(if g.Chain(key, 0) in m_stHashRing then {m_stHashRing[g.Chain(key, 0)]} else {})
      ensures old(Sound()) ==> (Sound() <==> !old(Dangles(g, m_stHashRing, key)))
    {
      hide Hashing.Points, Hashing.Align, Dangles, Spaced;
      chain := PointsAreSpaced(g, key, g.virtualSize);
      var ddwPointKey := g.Align(g.h(key));
      if ddwPointKey in m_stHashRing {
        live := live - {m_stHashRing[ddwPointKey]};
        m_stHashRing := m_stHashRing - {ddwPointKey};
      }
      g.FirstPoint(key);
      ghost var left := live;
      var i := 1;
      while i < g.virtualSize
        invariant live == left && 1 <= i && (i <= g.virtualSize || i == 1)
        invariant ddwPointKey == g.Chain(key, i - 1)
        invariant m_stHashRing == old(m_stHashRing) - g.Points(key, i)
      {
        ddwPointKey := g.Align(g.h2(ddwPointKey));
        m_stHashRing := m_stHashRing - {ddwPointKey};
        g.NextPoint(key, i);
        i := i + 1;
      }
      if old(Sound()) {
        DanglesExactly(g, old(m_stHashRing), key, old(live), live);
      }
    }

    /** The owner of a key: null past the last point. */
    method Hash(key: Key) returns (pstPoint: PointT?<Value>)
      requires g.Usable()
      ensures Owner(m_stHashRing, g.h(key)) == if pstPoint == null then None else Some(pstPoint)
    {
      hide Owner;
      var ddwPointKey := g.h(key);
      if k: nat :| k in m_stHashRing && ddwPointKey <= k
                   && forall j :: j in m_stHashRing && ddwPointKey <= j ==> k <= j {
        OwnerIs(m_stHashRing, ddwPointKey, k);
        pstPoint := m_stHashRing[k];
      } else {
        if k: nat :| k in m_stHashRing && ddwPointKey <= k {
          ghost var at := First(m_stHashRing, ddwPointKey, k);
        }
        UnownedIsPastTheEnd(m_stHashRing, ddwPointKey);
        pstPoint := null;
      }
    }
  }

  /** Two nodes of quota 1 whose points collide: the second gets only one point of its own, Delete of the second
      deletes the object of the first, and a point of the first is left behind. */
  method CollidingRun() returns (ring: ConsistentHash<nat, nat>, first: PointT<nat>, second: PointT<nat>)
    ensures ring.m_stHashRing == map[0 := first] && first !in ring.live && !ring.Sound()
  {
    hide Hashing.Claimed, Hashing.Dropped, Hashing.Points, Hashing.Chain, Hashing.Align, Added, Spaced, Dangles,
        Stepping;
    ring, first := FirstNode();
    SteppingPoints();
    ghost var chain;
    second, chain := ring.Insert(10, 1);
    AddedToTwo(first, second);
    assert ring.m_stHashRing == map[0 := first, 10 := first][20 := second];
    chain := ring.Delete(10);
    assert ring.m_stHashRing == map[0 := first];
    assert 0 in ring.m_stHashRing && ring.m_stHashRing[0] in ring.m_stHashRing.Values;
  }

  method FirstNode() returns (ring: ConsistentHash<nat, nat>, first: PointT<nat>)
    ensures fresh(ring) && fresh(first) && ring.g == Stepping() && ring.g.Usable()
    ensures ring.m_stHashRing == map[0 := first, 10 := first] && ring.live == {first}
  {
    hide Hashing.Points, Hashing.Chain, Hashing.Align, Spaced;
    ring := new ConsistentHash(Stepping());
    SteppingPoints();
    ghost var chain;
    first, chain := ring.Insert(0, 1);
    assert ring.m_stHashRing == map[0 := first, 10 := first];
  }

  lemma AddedToTwo(first: PointT<nat>, second: PointT<nat>)
    ensures var two: map<nat, PointT<nat>> := map[0 := first, 10 := first];
            var three: map<nat, PointT<nat>> := two[20 := second];
            && Added(two, Stepping().Claimed(10, 1), second) == three
            && three - Stepping().Dropped(10) == map[0 := first]
  {
    hide Hashing.Points, Hashing.Chain;
    SteppingPoints();
  }

  /** A ring of one node with one point: the key of the node itself finds it exactly if its hash is aligned, because
      its point may lie before the hash, and the ring does not wrap around. */
  method OneNode<Key(==,!new), Value(0)>(g: Hashing<Key>, key: Key)
    returns (node: PointT<Value>, found: PointT?<Value>)
    requires g.Usable() && g.virtualSize == 1
    ensures found == (if g.h(key) % g.alignSize == 0 then node else null)
  {
    hide Hashing.Points, Hashing.Align, Added, Owner;
    var ring := new ConsistentHash<Key, Value>(g);
    ghost var chain;
    node, chain := ring.Insert(key, 1);
    found := ring.Hash(key);
    OwnHash(g.alignSize, g.h(key), chain[0]);
    if chain[0] == g.h(key) {
      OwnerIs(ring.m_stHashRing, g.h(key), chain[0]);
    } else {
      UnownedIsPastTheEnd(ring.m_stHashRing, g.h(key));
    }
  }

  lemma OwnHash(a: nat, n: nat, p: nat)
    requires 0 < a && Below(a, n, p)
    ensures p == n <==> n % a == 0
  {
    if n % a == 0 {
      BelowOnce(a, n, p, n);
    }
  }
}

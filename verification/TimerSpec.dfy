/** What a timer promises, with no wheel in sight: a set of pending deadlines, the earliest of which fires
    first. The wheel of module TimingWheel is proved to be one of these machines. */
module TimerSpec {
  import opened TimerPlacement

  type Interval = x: int | 0 < x witness 10

  const TIME_MODULUS := 0x1_0000_0000_0000_0000

  /** The state a client can observe: `last` is the next tick to fire, `pending` maps the id of every live
      timer to the tick at which it fires. */
  datatype Flat = Flat(interval: Interval, last: nat, lastId: nat, pending: map<nat, nat>)

  /** The calls a client or a running callback can make; `clock` is the clock reading of that call. */
  datatype Command =
    | SetTimeout(clock: nat, timeout: int)
    | Update(clock: nat, id: nat, timeout: int)
    | Clear(id: nat)

  /** One invocation: the timer, its tick, and what its callback did before returning or throwing. */
  datatype Firing = Firing(id: nat, due: nat, commands: seq<Command>)

  /** C++ division truncates toward zero. */
  function TruncDiv(a: int, b: Interval): int {
    if a < 0 then -(-a / b) else a / b
  }

  /** The 64-bit deadline of a timeout: a timeout further in the past than tick 0 wraps around. */
  function Deadline(clock: nat, timeout: int, interval: Interval): nat {
    (clock + TruncDiv(timeout, interval)) % TIME_MODULUS
  }

  /** Tick t lies `timeout` after the clock reading, in whole intervals, cut off toward the reading. */
  predicate Elapses(interval: Interval, clock: nat, timeout: int, t: int) {
    if 0 <= timeout then (t - clock) * interval <= timeout < (t - clock + 1) * interval
    else (t - clock - 1) * interval < timeout <= (t - clock) * interval
  }

  /** A timer set or moved at that reading, when the current tick was `last`, is due at `tick`: at t, taken as a
      64-bit number, or at the current tick if that is later. */
  ghost predicate SetFor(interval: Interval, clock: nat, timeout: int, last: nat, tick: nat) {
    exists t: int ::
      && Elapses(interval, clock, timeout, t)
      && tick == if t % 0x1_0000_0000_0000_0000 < last then last else t % 0x1_0000_0000_0000_0000
  }

  lemma QuotientBounds(a: nat, b: Interval)
    ensures a / b * b <= a < (a / b + 1) * b
  {
  }

  lemma SmallerProduct(x: int, y: int, b: Interval)
    ensures x * b < y * b <==> x < y
  {
    if x < y {
      ProductAtLeast(y - x, b);
    } else if y < x {
      ProductAtLeast(x - y, b);
    }
  }

  lemma ProductAtLeast(n: nat, b: Interval)
    requires 0 < n
    ensures b <= n * b
  {
  }

  lemma TruncDivElapses(interval: Interval, clock: nat, timeout: int)
    ensures Elapses(interval, clock, timeout, clock + TruncDiv(timeout, interval))
  {
    var q := TruncDiv(timeout, interval);
    if timeout < 0 {
      QuotientBounds(-timeout, interval);
      assert (q - 1) * interval == -((-q + 1) * interval) && q * interval == -(-q * interval);
    } else {
      QuotientBounds(timeout, interval);
    }
  }

  /** Only one tick does. */
  lemma ElapsesOnce(interval: Interval, clock: nat, timeout: int, t: int, u: int)
    requires Elapses(interval, clock, timeout, t) && Elapses(interval, clock, timeout, u)
    ensures t == u
  {
    SmallerProduct(t - clock, u - clock + 1, interval);
    SmallerProduct(u - clock, t - clock + 1, interval);
    SmallerProduct(t - clock - 1, u - clock, interval);
    SmallerProduct(u - clock - 1, t - clock, interval);
  }

  /** What SetTimeout and Update make of a timeout. */
  lemma SetForTimeout(interval: Interval, clock: nat, timeout: int, last: nat)
    ensures SetFor(interval, clock, timeout, last, DueTick(Deadline(clock, timeout, interval), last))
  {
    TruncDivElapses(interval, clock, timeout);
  }

  /** A check at `now` comes later than `timeout` after the clock reading. */
  predicate Elapsed(interval: Interval, clock: nat, timeout: int, now: nat) {
    if 0 <= timeout then timeout < (now - clock) * interval else timeout <= (now - clock - 1) * interval
  }

  /** The tick `timeout` after the clock reading exists: it is not before tick 0, nor past 64 bits. */
  predicate Representable(interval: Interval, clock: nat, timeout: int) {
    if 0 <= timeout then timeout < (0x1_0000_0000_0000_0000 - clock) * interval
    else clock < 0x1_0000_0000_0000_0000 && (-1 - clock) * interval < timeout
  }

  /** Such a timer is due before `now` exactly when its timeout has elapsed by then and the check goes past the tick
      that was current. */
  lemma DueIffElapsed(interval: Interval, clock: nat, timeout: int, last: nat, tick: nat, now: nat)
    requires SetFor(interval, clock, timeout, last, tick) && Representable(interval, clock, timeout)
    ensures tick < now <==> last < now && Elapsed(interval, clock, timeout, now)
  {
    hide Elapses, Elapsed, Representable;
    var t := TickIs(interval, clock, timeout, last, tick);
    ElapsedIff(interval, clock, timeout, t, now);
  }

  /** A representable timeout is due exactly at its tick, or at the current one if that is later. */
  lemma TickIs(interval: Interval, clock: nat, timeout: int, last: nat, tick: nat) returns (t: int)
    requires SetFor(interval, clock, timeout, last, tick) && Representable(interval, clock, timeout)
    ensures Elapses(interval, clock, timeout, t) && tick == if t < last then last else t
  {
    hide Elapses, Representable;
    t :| Elapses(interval, clock, timeout, t)
         && tick == if t % 0x1_0000_0000_0000_0000 < last then last else t % 0x1_0000_0000_0000_0000;
    TickFits(interval, clock, timeout, t);
  }

  lemma ElapsedIff(interval: Interval, clock: nat, timeout: int, t: int, now: nat)
    requires Elapses(interval, clock, timeout, t)
    ensures t < now <==> Elapsed(interval, clock, timeout, now)
  {
    if 0 <= timeout {
      SmallerProduct(t - clock, now - clock, interval);
      SmallerProduct(now - clock, t - clock + 1, interval);
    } else {
      SmallerProduct(now - clock - 1, t - clock, interval);
      SmallerProduct(t - clock - 1, now - clock - 1, interval);
    }
  }

  lemma TickFits(interval: Interval, clock: nat, timeout: int, t: int)
    requires Elapses(interval, clock, timeout, t) && Representable(interval, clock, timeout)
    ensures 0 <= t < 0x1_0000_0000_0000_0000
  {
    if 0 <= timeout {
      SmallerProduct(t - clock, 0x1_0000_0000_0000_0000 - clock, interval);
      SmallerProduct(0, t - clock + 1, interval);
    } else {
      SmallerProduct(-1 - clock, t - clock, interval);
      SmallerProduct(t - clock - 1, 0, interval);
    }
  }

  function Apply(f: Flat, c: Command): Flat {
    match c
    case SetTimeout(clock, timeout) =>
      f.(lastId := f.lastId + 1,
         pending := f.pending[f.lastId + 1 := DueTick(Deadline(clock, timeout, f.interval), f.last)])
    case Update(clock, id, timeout) =>
      if id in f.pending
      then f.(pending := f.pending[id := DueTick(Deadline(clock, timeout, f.interval), f.last)])
      else f
    case Clear(id) => f.(pending := f.pending - {id})
  }

  function ApplyAll(f: Flat, cs: seq<Command>): Flat {
    if cs == [] then f else Apply(ApplyAll(f, cs[..|cs| - 1]), cs[|cs| - 1])
  }

  /** The state in which the callback of a firing starts: its own timer is gone. */
  function Begin(f: Flat, e: Firing): Flat {
    f.(last := e.due + 1, pending := f.pending - {e.id})
  }

  function Fire(f: Flat, e: Firing): Flat {
    ApplyAll(Begin(f, e), e.commands)
  }

  function Replay(f: Flat, log: seq<Firing>): Flat {
    if log == [] then f else Fire(Replay(f, log[..|log| - 1]), log[|log| - 1])
  }

  /** Only a pending timer with an earliest deadline, before `now`, may fire. */
  ghost predicate Legal(f: Flat, e: Firing, now: nat) {
    && e.id in f.pending && f.pending[e.id] == e.due
    && e.due < now
    && forall id :: id in f.pending ==> e.due <= f.pending[id]
  }

  ghost predicate LegalLog(f: Flat, log: seq<Firing>, now: nat) {
    forall i :: 0 <= i < |log| ==> Legal(Replay(f, log[..i]), log[i], now)
  }

  /** CheckTimer at `now` took the machine from f to g, firing `log`, and left nothing due behind. */
  ghost predicate Checked(f: Flat, now: nat, log: seq<Firing>, g: Flat) {
    && LegalLog(f, log, now)
    && g == AfterCheck(f, now, log)
    && forall id :: id in g.pending ==> now <= g.pending[id]
  }

  function AfterCheck(f: Flat, now: nat, log: seq<Firing>): Flat {
    var r := Replay(f, log);
    r.(last := if r.last < now then now else r.last)
  }

  /** Well-formed between calls: ids were handed out, and nothing is overdue. */
  ghost predicate Valid(f: Flat) {
    && (forall id :: id in f.pending ==> id <= f.lastId)
    && forall id :: id in f.pending ==> f.last <= f.pending[id]
  }

  /** `id` was handed out and its timer no longer exists. */
  predicate Gone(f: Flat, id: nat) {
    id <= f.lastId && id !in f.pending
  }

  predicate Touches(c: Command, id: nat) {
    (c.Update? || c.Clear?) && c.id == id
  }

  // ----- steps

  /** A command that touches a timer changes it in some state. */
  lemma TouchesMatters(c: Command, id: nat) returns (f: Flat)
    requires Touches(c, id)
    ensures id in f.pending && id <= f.lastId
    ensures id in Apply(f, c).pending ==> Apply(f, c).pending[id] != f.pending[id]
  {
    var tick := if c.Update? then DueTick(Deadline(c.clock, c.timeout, 10), 0) else 0;
    f := Flat(10, 0, id, map[id := tick + 1]);
  }

  /** Facts about one state that commands and firings keep: nothing pending before tick d, `last` not before
      tick b, ids handed out. */
  ghost predicate NotBefore(f: Flat, d: nat, b: nat) {
    && b <= f.last
    && (forall id :: id in f.pending ==> id <= f.lastId)
    && forall id :: id in f.pending ==> d <= f.pending[id]
  }

  lemma {:induction false} CommandsKeepOrder(f: Flat, cs: seq<Command>, d: nat, b: nat)
    requires NotBefore(f, d, b) && d <= b
    ensures NotBefore(ApplyAll(f, cs), d, b)
    ensures ApplyAll(f, cs).last == f.last
    ensures f.lastId <= ApplyAll(f, cs).lastId
  {
    if cs != [] {
      CommandsKeepOrder(f, cs[..|cs| - 1], d, b);
    }
  }

  lemma {:induction false} CommandsKeepGone(f: Flat, cs: seq<Command>, id: nat)
    requires Gone(f, id)
    ensures Gone(ApplyAll(f, cs), id)
  {
    if cs != [] {
      CommandsKeepGone(f, cs[..|cs| - 1], id);
    }
  }

  /** After a legal prefix, nothing is pending before the last tick fired. */
  lemma {:induction false} ReplayKeepsOrder(f: Flat, log: seq<Firing>, now: nat)
    requires Valid(f) && LegalLog(f, log, now)
    ensures log == [] ==> NotBefore(Replay(f, log), f.last, f.last)
    ensures log != [] ==> NotBefore(Replay(f, log), log[|log| - 1].due, log[|log| - 1].due + 1)
    ensures log != [] ==> Replay(f, log).last == log[|log| - 1].due + 1
    ensures log != [] ==> f.last <= log[0].due
    ensures f.last <= Replay(f, log).last
    ensures f.lastId <= Replay(f, log).lastId
  {
    if log != [] {
      var n := |log| - 1;
      PrefixLegal(f, log, now, n);
      ReplayKeepsOrder(f, log[..n], now);
      var r := Replay(f, log[..n]);
      assert Legal(r, log[n], now);
      if n > 0 {
        assert log[..n][n - 1] == log[n - 1] && log[..n][0] == log[0];
      }
      CommandsKeepOrder(Begin(r, log[n]), log[n].commands, log[n].due, log[n].due + 1);
    }
  }

  lemma PrefixLegal(f: Flat, log: seq<Firing>, now: nat, k: nat)
    requires LegalLog(f, log, now) && k <= |log|
    ensures LegalLog(f, log[..k], now)
  {
    forall i | 0 <= i < k
      ensures Legal(Replay(f, log[..k][..i]), log[..k][i], now)
    {
      assert log[..k][..i] == log[..i];
    }
  }

  lemma {:induction false} ReplayKeepsGone(f: Flat, log: seq<Firing>, id: nat)
    requires Gone(f, id)
    ensures Gone(Replay(f, log), id)
  {
    if log != [] {
      ReplayKeepsGone(f, log[..|log| - 1], id);
      var r := Replay(f, log[..|log| - 1]);
      CommandsKeepGone(Begin(r, log[|log| - 1]), log[|log| - 1].commands, id);
    }
  }

  lemma {:induction false} ReplayConcat(f: Flat, a: seq<Firing>, b: seq<Firing>)
    ensures Replay(f, a + b) == Replay(Replay(f, a), b)
  {
    if b == [] {
      assert a + b == a;
    } else {
      assert (a + b)[..|a + b| - 1] == a + b[..|b| - 1];
      ReplayConcat(f, a, b[..|b| - 1]);
    }
  }

  /** One more legal firing extends a legal log. */
  lemma LegalSnoc(f: Flat, log: seq<Firing>, e: Firing, now: nat)
    requires LegalLog(f, log, now) && Legal(Replay(f, log), e, now)
    ensures LegalLog(f, log + [e], now) && Replay(f, log + [e]) == Fire(Replay(f, log), e)
  {
    var longer := log + [e];
    assert longer[..|log|] == log;
    forall i | 0 <= i < |longer|
      ensures Legal(Replay(f, longer[..i]), longer[i], now)
    {
      if i < |log| {
        assert longer[..i] == log[..i];
      }
    }
  }

  // ----- one CheckTimer

  /** Timers fire in the order of their ticks. */
  lemma {:induction false} FiringOrder(f: Flat, log: seq<Firing>, now: nat, i: nat, j: nat)
    requires Valid(f) && LegalLog(f, log, now) && i <= j < |log|
    ensures f.last <= log[i].due <= log[j].due < now
    decreases j
  {
    PrefixLegal(f, log, now, j);
    ReplayKeepsOrder(f, log[..j], now);
    assert Legal(Replay(f, log[..j]), log[j], now);
    if j > 0 {
      FiringOrder(f, log, now, if i < j then i else j - 1, j - 1);
    }
  }

  /** A timer that is gone after some firing never fires again. */
  lemma GoneNeverFires(f: Flat, log: seq<Firing>, now: nat, k: nat, id: nat, j: nat)
    requires LegalLog(f, log, now) && k <= j < |log|
    requires Gone(Replay(f, log[..k]), id)
    ensures log[j].id != id
  {
    assert log[..j] == log[..k] + log[k..j];
    ReplayConcat(f, log[..k], log[k..j]);
    ReplayKeepsGone(Replay(f, log[..k]), log[k..j], id);
    assert Legal(Replay(f, log[..j]), log[j], now);
  }

  /** No timer fires twice. */
  lemma FiresOnce(f: Flat, log: seq<Firing>, now: nat, i: nat, j: nat)
    requires Valid(f) && LegalLog(f, log, now) && i < j < |log|
    ensures log[i].id != log[j].id
  {
    FiredIsGone(f, log, now, i);
    GoneNeverFires(f, log, now, i + 1, log[i].id, j);
  }

  lemma FiredIsGone(f: Flat, log: seq<Firing>, now: nat, i: nat)
    requires Valid(f) && LegalLog(f, log, now) && i < |log|
    ensures Gone(Replay(f, log[..i + 1]), log[i].id)
  {
    PrefixLegal(f, log, now, i);
    ReplayKeepsOrder(f, log[..i], now);
    var r := Replay(f, log[..i]);
    assert Legal(r, log[i], now);
    assert log[..i + 1][..i] == log[..i];
    CommandsKeepGone(Begin(r, log[i]), log[i].commands, log[i].id);
  }

  /** A timer cleared by a callback is not invoked afterwards. */
  lemma ClearedNeverFires(f: Flat, log: seq<Firing>, now: nat, i: nat, k: nat, j: nat)
    requires Valid(f) && LegalLog(f, log, now) && i < j < |log|
    requires k < |log[i].commands| && log[i].commands[k].Clear?
    requires log[i].commands[k].id <= Replay(f, log[..i]).lastId
    ensures log[j].id != log[i].commands[k].id
  {
    var id := log[i].commands[k].id;
    PrefixLegal(f, log, now, i);
    ReplayKeepsOrder(f, log[..i], now);
    var r := Replay(f, log[..i]);
    assert Legal(r, log[i], now);
    CommandsKeepOrder(Begin(r, log[i]), log[i].commands[..k + 1], log[i].due, log[i].due + 1);
    assert log[i].commands[..k + 1][..k] == log[i].commands[..k];
    ApplyAllConcat(Begin(r, log[i]), log[i].commands[..k + 1], log[i].commands[k + 1..]);
    assert log[i].commands[..k + 1] + log[i].commands[k + 1..] == log[i].commands;
    CommandsKeepGone(ApplyAll(Begin(r, log[i]), log[i].commands[..k + 1]), log[i].commands[k + 1..], id);
    assert log[..i + 1][..i] == log[..i];
    GoneNeverFires(f, log, now, i + 1, id, j);
  }

  lemma {:induction false} ApplyAllConcat(f: Flat, a: seq<Command>, b: seq<Command>)
    ensures ApplyAll(f, a + b) == ApplyAll(ApplyAll(f, a), b)
  {
    if b == [] {
      assert a + b == a;
    } else {
      assert (a + b)[..|a + b| - 1] == a + b[..|b| - 1];
      ApplyAllConcat(f, a, b[..|b| - 1]);
    }
  }

  /** `id` is not pending at tick d or earlier: it was cleared, moved, or not yet set. */
  predicate Later(f: Flat, id: nat, d: nat) {
    d < f.last && (id in f.pending ==> d < f.pending[id])
  }

  lemma {:induction false} CommandsKeepLater(f: Flat, cs: seq<Command>, id: nat, d: nat)
    requires Later(f, id, d)
    ensures Later(ApplyAll(f, cs), id, d)
  {
    if cs != [] {
      CommandsKeepLater(f, cs[..|cs| - 1], id, d);
    }
  }

  lemma FiringKeepsLater(f: Flat, e: Firing, id: nat, d: nat)
    requires Later(f, id, d) && f.last <= e.due + 1
    ensures Later(Fire(f, e), id, d)
  {
    CommandsKeepLater(Begin(f, e), e.commands, id, d);
  }

  /** Command k of a callback sets or moves timer `id`. */
  ghost predicate Sets(f: Flat, e: Firing, k: nat, id: nat)
    requires k < |e.commands|
  {
    match e.commands[k]
    case SetTimeout(_, _) => id == ApplyAll(Begin(f, e), e.commands[..k]).lastId + 1
    case Update(_, u, _) => id == u
    case Clear(_) => false
  }

  lemma SetIsLater(f: Flat, e: Firing, k: nat, id: nat)
    requires k < |e.commands| && Sets(f, e, k, id)
    requires NotBefore(Begin(f, e), e.due, e.due + 1)
    ensures Later(Fire(f, e), id, e.due)
  {
    var cs := e.commands;
    CommandsKeepOrder(Begin(f, e), cs[..k], e.due, e.due + 1);
    assert cs[..k + 1][..k] == cs[..k];
    CommandsKeepLater(ApplyAll(Begin(f, e), cs[..k + 1]), cs[k + 1..], id, e.due);
    ApplyAllConcat(Begin(f, e), cs[..k + 1], cs[k + 1..]);
    assert cs[..k + 1] + cs[k + 1..] == cs;
  }

  /** A timer set or moved by a callback never joins the tick being fired: it fires at a later tick. */
  lemma RescheduledFiresLater(f: Flat, log: seq<Firing>, now: nat, i: nat, k: nat, id: nat, j: nat)
    requires Valid(f) && LegalLog(f, log, now) && i < j < |log|
    requires k < |log[i].commands| && Sets(Replay(f, log[..i]), log[i], k, id)
    requires log[j].id == id
    ensures log[i].due < log[j].due
  {
    PrefixLegal(f, log, now, i);
    ReplayKeepsOrder(f, log[..i], now);
    assert Legal(Replay(f, log[..i]), log[i], now);
    SetIsLater(Replay(f, log[..i]), log[i], k, id);
    assert log[..i + 1][..i] == log[..i];
    LaterStays(f, log, now, i + 1, id, log[i].due, j);
    assert Legal(Replay(f, log[..j]), log[j], now);
  }

  lemma {:induction false} LaterStays(f: Flat, log: seq<Firing>, now: nat, k: nat, id: nat, d: nat, j: nat)
    requires Valid(f) && LegalLog(f, log, now) && k <= j <= |log|
    requires Later(Replay(f, log[..k]), id, d)
    ensures Later(Replay(f, log[..j]), id, d)
    decreases j
  {
    hide Valid, LegalLog, Later, Fire;
    if k < j {
      LaterStays(f, log, now, k, id, d, j - 1);
      LastAdvances(f, log, now, j - 1);
      assert log[..j][..j - 1] == log[..j - 1];
      FiringKeepsLater(Replay(f, log[..j - 1]), log[j - 1], id, d);
    }
  }

  lemma LastAdvances(f: Flat, log: seq<Firing>, now: nat, i: nat)
    requires Valid(f) && LegalLog(f, log, now) && i < |log|
    ensures Replay(f, log[..i]).last <= log[i].due + 1
  {
    PrefixLegal(f, log, now, i);
    ReplayKeepsOrder(f, log[..i], now);
    if i > 0 {
      FiringOrder(f, log, now, i - 1, i);
      assert log[..i][i - 1] == log[i - 1];
    } else {
      FiringOrder(f, log, now, 0, 0);
    }
  }

  /** No command run before `id` fires names it. */
  ghost predicate Untouched(log: seq<Firing>, id: nat) {
    forall i, k :: 0 <= i < |log| && 0 <= k < |log[i].commands| && Touches(log[i].commands[k], id)
      ==> exists j :: 0 <= j <= i && log[j].id == id
  }

  lemma {:induction false} CommandsKeepPending(f: Flat, cs: seq<Command>, id: nat)
    requires id in f.pending && id <= f.lastId
    requires forall k :: 0 <= k < |cs| ==> !Touches(cs[k], id)
    ensures id in ApplyAll(f, cs).pending && ApplyAll(f, cs).pending[id] == f.pending[id]
    ensures id <= ApplyAll(f, cs).lastId
  {
    if cs != [] {
      CommandsKeepPending(f, cs[..|cs| - 1], id);
    }
  }

  lemma FiringKeepsPending(f: Flat, e: Firing, id: nat)
    requires id in f.pending && id <= f.lastId && id != e.id
    requires forall k :: 0 <= k < |e.commands| ==> !Touches(e.commands[k], id)
    ensures id in Fire(f, e).pending && Fire(f, e).pending[id] == f.pending[id]
    ensures id <= Fire(f, e).lastId
  {
    CommandsKeepPending(Begin(f, e), e.commands, id);
  }

  lemma {:induction false} UnfiredStaysPending(f: Flat, log: seq<Firing>, id: nat, n: nat)
    requires id in f.pending && id <= f.lastId && Untouched(log, id)
    requires n <= |log| && forall i :: 0 <= i < n ==> log[i].id != id
    ensures id in Replay(f, log[..n]).pending && Replay(f, log[..n]).pending[id] == f.pending[id]
    ensures id <= Replay(f, log[..n]).lastId
    decreases n
  {
    hide Fire;
    if n > 0 {
      UnfiredStaysPending(f, log, id, n - 1);
      assert log[..n][..n - 1] == log[..n - 1];
      FiringKeepsPending(Replay(f, log[..n - 1]), log[n - 1], id);
    }
  }

  ghost predicate FiresId(log: seq<Firing>, id: nat) {
    exists i :: 0 <= i < |log| && log[i].id == id
  }

  ghost predicate FiresOnlyAt(log: seq<Firing>, id: nat, due: nat) {
    forall i :: 0 <= i < |log| && log[i].id == id ==> log[i].due == due
  }

  /** CheckTimer at `now` fires exactly the timers due before `now`, each at its own tick, and leaves every
      other timer pending and unchanged, whatever the callbacks do to further timers. */
  lemma ExactlyTheDueFire(f: Flat, now: nat, log: seq<Firing>, g: Flat, id: nat)
    requires Valid(f) && Checked(f, now, log, g) && id in f.pending && Untouched(log, id)
    ensures FiresId(log, id) <==> f.pending[id] < now
    ensures FiresOnlyAt(log, id, f.pending[id])
    ensures f.pending[id] < now ==> Gone(g, id)
    ensures now <= f.pending[id] ==> id in g.pending && g.pending[id] == f.pending[id]
  {
    assert log[0..] == log && log[..0] == [];
    PendingFiresExactlyIfDue(f, now, log, g, 0, id, f.pending[id]);
  }

  /** A timer that a callback has just set or moved to tick d, and that nobody names afterwards: it fires later in
      the same CheckTimer exactly when d is before `now`, once and at d; otherwise it stays pending for d. */
  lemma SetFiresExactlyIfDue(f: Flat, now: nat, log: seq<Firing>, g: Flat, i: nat, k: nat, id: nat, d: nat)
    requires Valid(f) && Checked(f, now, log, g) && i < |log| && k < |log[i].commands|
    requires Sets(Replay(f, log[..i]), log[i], k, id)
    requires var s := ApplyAll(Begin(Replay(f, log[..i]), log[i]), log[i].commands[..k + 1]);
             id in s.pending && s.pending[id] == d && id <= s.lastId
    requires forall c :: k < c < |log[i].commands| ==> !Touches(log[i].commands[c], id)
    requires Untouched(log[i + 1..], id)
    ensures FiresId(log[i + 1..], id) <==> d < now
    ensures FiresOnlyAt(log[i + 1..], id, d)
    ensures d < now ==> Gone(g, id)
    ensures now <= d ==> id in g.pending && g.pending[id] == d
  {
    SetIsPending(Replay(f, log[..i]), log[i], k, id, d);
    assert log[..i + 1][..i] == log[..i];
    PendingFiresExactlyIfDue(f, now, log, g, i + 1, id, d);
  }

  lemma SetIsPending(f: Flat, e: Firing, k: nat, id: nat, d: nat)
    requires k < |e.commands|
    requires var s := ApplyAll(Begin(f, e), e.commands[..k + 1]);
             id in s.pending && s.pending[id] == d && id <= s.lastId
    requires forall c :: k < c < |e.commands| ==> !Touches(e.commands[c], id)
    ensures id in Fire(f, e).pending && Fire(f, e).pending[id] == d && id <= Fire(f, e).lastId
  {
    hide Touches, ApplyAll;
    var cs := e.commands;
    CommandsKeepPending(ApplyAll(Begin(f, e), cs[..k + 1]), cs[k + 1..], id);
    ApplyAllConcat(Begin(f, e), cs[..k + 1], cs[k + 1..]);
    assert cs[..k + 1] + cs[k + 1..] == cs;
  }

  /** The same of any timer pending for d after the first n firings. */
  lemma PendingFiresExactlyIfDue(f: Flat, now: nat, log: seq<Firing>, g: Flat, n: nat, id: nat, d: nat)
    requires Valid(f) && Checked(f, now, log, g) && n <= |log|
    requires var s := Replay(f, log[..n]);
             id in s.pending && s.pending[id] == d && id <= s.lastId
    requires Untouched(log[n..], id)
    ensures FiresId(log[n..], id) <==> d < now
    ensures FiresOnlyAt(log[n..], id, d)
    ensures d < now ==> Gone(g, id)
    ensures now <= d ==> id in g.pending && g.pending[id] == d
  {
    hide LegalLog, Untouched, Replay, Legal, Fire;
    var s, rest := Replay(f, log[..n]), log[n..];
    assert log == log[..n] + rest;
    ReplayConcat(f, log[..n], rest);
    forall j | 0 <= j < |rest| && rest[j].id == id
      ensures rest[j].due == d < now && Gone(g, id)
    {
      LaterFiring(f, now, log, n, id, d, j);
      FiredIsGone(f, log, now, n + j);
      GoneStaysGone(f, log, n + j + 1, id);
    }
    if !FiresId(rest, id) {
      UnfiredStaysPending(s, rest, id, |rest|);
      assert rest[..|rest|] == rest;
    }
  }

  lemma LaterFiring(f: Flat, now: nat, log: seq<Firing>, n: nat, id: nat, d: nat, j: nat)
    requires Valid(f) && LegalLog(f, log, now) && n <= |log|
    requires var s := Replay(f, log[..n]);
             id in s.pending && s.pending[id] == d && id <= s.lastId
    requires Untouched(log[n..], id) && j < |log| - n && log[n + j].id == id
    ensures log[n + j].due == d < now
  {
    hide Untouched, Replay, Fire;
    var rest := log[n..];
    forall m | 0 <= m < j
      ensures rest[m].id != id
    {
      FiresOnce(f, log, now, n + m, n + j);
    }
    UnfiredStaysPending(Replay(f, log[..n]), rest, id, j);
    ReplayConcat(f, log[..n], rest[..j]);
    assert log[..n] + rest[..j] == log[..n + j];
    assert Legal(Replay(f, log[..n + j]), log[n + j], now);
  }

  lemma GoneStaysGone(f: Flat, log: seq<Firing>, k: nat, id: nat)
    requires k <= |log| && Gone(Replay(f, log[..k]), id)
    ensures Gone(Replay(f, log), id)
  {
    assert log == log[..k] + log[k..];
    ReplayConcat(f, log[..k], log[k..]);
    ReplayKeepsGone(Replay(f, log[..k]), log[k..], id);
  }

  // ----- whole runs

  /** A client call between checks, or a CheckTimer that fired `log`. */
  datatype Event = Do(command: Command) | Check(now: nat, log: seq<Firing>)

  function After(f: Flat, e: Event): Flat {
    match e
    case Do(c) => Apply(f, c)
    case Check(now, log) => AfterCheck(f, now, log)
  }

  function State(f: Flat, run: seq<Event>): Flat {
    if run == [] then f else After(State(f, run[..|run| - 1]), run[|run| - 1])
  }

  ghost predicate LegalEvent(f: Flat, e: Event) {
    e.Check? ==> Checked(f, e.now, e.log, After(f, e))
  }

  ghost predicate LegalRun(f: Flat, run: seq<Event>) {
    forall i :: 0 <= i < |run| ==> LegalEvent(State(f, run[..i]), run[i])
  }

  /** Everything a run fired, in order. */
  function Fired(run: seq<Event>): seq<Firing> {
    if run == [] then []
    else
      var e := run[|run| - 1];
      Fired(run[..|run| - 1]) + (if e.Check? then e.log else [])
  }

  lemma RunPrefix(f: Flat, run: seq<Event>, k: nat)
    requires LegalRun(f, run) && k <= |run|
    ensures LegalRun(f, run[..k])
    ensures k < |run| ==> LegalEvent(State(f, run[..k]), run[k])
  {
    forall i | 0 <= i < k
      ensures LegalEvent(State(f, run[..k][..i]), run[..k][i])
    {
      assert run[..k][..i] == run[..i];
    }
  }

  /** One more event extends a run. */
  lemma RunSnoc(f: Flat, run: seq<Event>, e: Event)
    requires LegalRun(f, run) && LegalEvent(State(f, run), e)
    ensures LegalRun(f, run + [e]) && State(f, run + [e]) == After(State(f, run), e)
    ensures Fired(run + [e]) == Fired(run) + (if e.Check? then e.log else [])
  {
    hide LegalEvent, After;
    var longer := run + [e];
    assert longer[..|run|] == run;
    forall i | 0 <= i < |longer|
      ensures LegalEvent(State(f, longer[..i]), longer[i])
    {
      if i < |run| {
        assert longer[..i] == run[..i];
      }
    }
  }

  lemma CommandKeepsValid(f: Flat, c: Command)
    requires Valid(f)
    ensures Valid(Apply(f, c))
  {
  }

  lemma CheckKeepsValid(f: Flat, now: nat, log: seq<Firing>)
    requires Valid(f) && Checked(f, now, log, AfterCheck(f, now, log))
    ensures Valid(AfterCheck(f, now, log))
    ensures f.last <= AfterCheck(f, now, log).last
    ensures forall i :: 0 <= i < |log| ==> f.last <= log[i].due < AfterCheck(f, now, log).last
    ensures forall i :: 0 <= i < |log| ==> Gone(AfterCheck(f, now, log), log[i].id)
  {
    hide LegalLog;
    ReplayKeepsOrder(f, log, now);
    forall i | 0 <= i < |log|
      ensures f.last <= log[i].due < AfterCheck(f, now, log).last
      ensures Gone(Replay(f, log), log[i].id)
    {
      FiringOrder(f, log, now, i, |log| - 1);
      FiredIsGone(f, log, now, i);
      GoneStaysGone(f, log, i + 1, log[i].id);
    }
    if log != [] {
      FiringOrder(f, log, now, |log| - 1, |log| - 1);
    }
  }

  /** Firings in order of their ticks, no timer twice. */
  ghost predicate InOrderOnce(fired: seq<Firing>) {
    forall i, j :: 0 <= i < j < |fired| ==> fired[i].due <= fired[j].due && fired[i].id != fired[j].id
  }

  /** Every firing lies before the current tick and its timer is gone. */
  ghost predicate AllSpent(fired: seq<Firing>, f: Flat) {
    forall i :: 0 <= i < |fired| ==> fired[i].due < f.last && Gone(f, fired[i].id)
  }

  lemma CommandKeepsSpent(fired: seq<Firing>, f: Flat, c: Command)
    requires AllSpent(fired, f)
    ensures AllSpent(fired, Apply(f, c))
  {
  }

  lemma CheckKeepsSpent(earlier: seq<Firing>, f: Flat, now: nat, log: seq<Firing>)
    requires Valid(f) && Checked(f, now, log, AfterCheck(f, now, log))
    requires InOrderOnce(earlier) && AllSpent(earlier, f)
    ensures InOrderOnce(earlier + log) && AllSpent(earlier + log, AfterCheck(f, now, log))
  {
    CheckKeepsValid(f, now, log);
    forall i | 0 <= i < |earlier|
      ensures Gone(AfterCheck(f, now, log), earlier[i].id) && !FiresId(log, earlier[i].id)
    {
      ReplayKeepsGone(f, log, earlier[i].id);
      NoneOfTheGone(f, now, log, earlier[i].id);
    }
    forall i, j | 0 <= i < j < |log|
      ensures log[i].due <= log[j].due && log[i].id != log[j].id
    {
      FiringOrder(f, log, now, i, j);
      FiresOnce(f, log, now, i, j);
    }
  }

  /** Over a whole run, whatever the clock readings: ticks never decrease from one firing to the next, no
      timer fires twice, and everything fired is over and done with. */
  lemma {:induction false} RunFiresInOrderOnce(f: Flat, run: seq<Event>)
    requires Valid(f) && LegalRun(f, run)
    ensures Valid(State(f, run))
    ensures InOrderOnce(Fired(run)) && AllSpent(Fired(run), State(f, run))
  {
    if run != [] {
      var n := |run| - 1;
      RunPrefix(f, run, n);
      RunFiresInOrderOnce(f, run[..n]);
      var s := State(f, run[..n]);
      if run[n].Check? {
        CheckKeepsValid(s, run[n].now, run[n].log);
        CheckKeepsSpent(Fired(run[..n]), s, run[n].now, run[n].log);
      } else {
        CommandKeepsValid(s, run[n].command);
        CommandKeepsSpent(Fired(run[..n]), s, run[n].command);
        assert Fired(run) == Fired(run[..n]);
      }
    }
  }

  /** Neither the client nor a callback of the run names `id`. */
  ghost predicate RunUntouched(run: seq<Event>, id: nat) {
    forall i :: 0 <= i < |run| ==>
      match run[i]
      case Do(c) => !Touches(c, id)
      case Check(_, log) => Untouched(log, id)
  }

  /** Some CheckTimer of the run reads a clock past `due`. */
  ghost predicate LooksPast(run: seq<Event>, due: nat) {
    exists i :: 0 <= i < |run| && run[i].Check? && due < run[i].now
  }

  /** A timer that is left alone fires in a run exactly when some CheckTimer of the run looks past its tick,
      and then at its tick; until then it stays pending with that tick. */
  lemma {:induction false} RunFiresExactlyTheDue(f: Flat, run: seq<Event>, id: nat)
    requires Valid(f) && LegalRun(f, run) && id in f.pending && RunUntouched(run, id)
    ensures FiresId(Fired(run), id) <==> LooksPast(run, f.pending[id])
    ensures FiresOnlyAt(Fired(run), id, f.pending[id])
    ensures FiresId(Fired(run), id) ==> Gone(State(f, run), id)
    ensures !FiresId(Fired(run), id) ==> id in State(f, run).pending && State(f, run).pending[id] == f.pending[id]
  {
    RunFiresInOrderOnce(f, run);
    if run != [] {
      var n := |run| - 1;
      RunPrefix(f, run, n);
      RunFiresExactlyTheDue(f, run[..n], id);
      RunFiresInOrderOnce(f, run[..n]);
      LooksPastLast(run, f.pending[id]);
      var log := if run[n].Check? then run[n].log else [];
      FiresIdConcat(Fired(run[..n]), log, id);
      assert Fired(run) == Fired(run[..n]) + log;
      if run[n].Check? {
        LastCheck(State(f, run[..n]), run[n].now, log, id, f.pending[id]);
      }
    }
  }

  /** A timer that was set or moved at a clock reading, when the current tick was `last`, and is left alone fires in a
      run exactly when some CheckTimer of the run goes past that tick after the timeout has elapsed. */
  lemma RunFiresAfterTimeout(f: Flat, run: seq<Event>, id: nat, clock: nat, timeout: int, last: nat)
    requires Valid(f) && LegalRun(f, run) && id in f.pending && RunUntouched(run, id)
    requires SetFor(f.interval, clock, timeout, last, f.pending[id]) && Representable(f.interval, clock, timeout)
    ensures FiresId(Fired(run), id) <==> SomeCheckAfter(f.interval, run, clock, timeout, last)
  {
    hide LegalRun, RunUntouched, SetFor, Representable, Elapsed;
    RunFiresExactlyTheDue(f, run, id);
    forall i | 0 <= i < |run| && run[i].Check?
      ensures f.pending[id] < run[i].now <==> last < run[i].now && Elapsed(f.interval, clock, timeout, run[i].now)
    {
      DueIffElapsed(f.interval, clock, timeout, last, f.pending[id], run[i].now);
    }
  }

  ghost predicate SomeCheckAfter(interval: Interval, run: seq<Event>, clock: nat, timeout: int, last: nat) {
    exists i :: 0 <= i < |run| && run[i].Check? && last < run[i].now && Elapsed(interval, clock, timeout, run[i].now)
  }

  /** In particular after SetTimeout, and after Update of a pending timer. */
  lemma SetThenFires(f: Flat, c: Command, run: seq<Event>, id: nat)
    requires Valid(f) && LegalRun(Apply(f, c), run) && RunUntouched(run, id)
    requires (c.SetTimeout? && id == f.lastId + 1) || (c.Update? && id == c.id && id in f.pending)
    requires Representable(f.interval, c.clock, c.timeout)
    ensures SetFor(f.interval, c.clock, c.timeout, f.last, Apply(f, c).pending[id])
    ensures FiresId(Fired(run), id) <==> SomeCheckAfter(f.interval, run, c.clock, c.timeout, f.last)
  {
    hide LegalRun, RunUntouched, SetFor, Representable, SomeCheckAfter, Deadline;
    SetForTimeout(f.interval, c.clock, c.timeout, f.last);
    CommandKeepsValid(f, c);
    RunFiresAfterTimeout(Apply(f, c), run, id, c.clock, c.timeout, f.last);
  }

  /** One CheckTimer, seen from a timer that either is pending for `due` or is gone. */
  lemma LastCheck(f: Flat, now: nat, log: seq<Firing>, id: nat, due: nat)
    requires Valid(f) && Checked(f, now, log, AfterCheck(f, now, log)) && Untouched(log, id)
    requires Gone(f, id) || (id in f.pending && f.pending[id] == due)
    ensures FiresOnlyAt(log, id, due)
    ensures id in f.pending ==> (FiresId(log, id) <==> due < now)
    ensures id !in f.pending ==> !FiresId(log, id)
    ensures id in f.pending && now <= due ==>
            id in AfterCheck(f, now, log).pending && AfterCheck(f, now, log).pending[id] == due
  {
    if id in f.pending {
      ExactlyTheDueFire(f, now, log, AfterCheck(f, now, log), id);
    } else {
      NoneOfTheGone(f, now, log, id);
    }
  }

  lemma NoneOfTheGone(f: Flat, now: nat, log: seq<Firing>, id: nat)
    requires LegalLog(f, log, now) && Gone(f, id)
    ensures !FiresId(log, id)
  {
    if FiresId(log, id) {
      var j :| 0 <= j < |log| && log[j].id == id;
      assert log[..0] == [];
      GoneNeverFires(f, log, now, 0, id, j);
    }
  }

  lemma FiresIdConcat(a: seq<Firing>, b: seq<Firing>, id: nat)
    ensures FiresId(a + b, id) <==> FiresId(a, id) || FiresId(b, id)
  {
    if i :| 0 <= i < |a| && a[i].id == id {
      assert (a + b)[i].id == id;
    }
    if i :| 0 <= i < |b| && b[i].id == id {
      assert (a + b)[|a| + i].id == id;
    }
  }

  lemma LooksPastLast(run: seq<Event>, due: nat)
    requires run != []
    ensures LooksPast(run, due) <==>
            LooksPast(run[..|run| - 1], due) || (run[|run| - 1].Check? && due < run[|run| - 1].now)
  {
    var n := |run| - 1;
    if c :| 0 <= c < n && run[..n][c].Check? && due < run[..n][c].now {
      assert run[c] == run[..n][c];
    }
    if LooksPast(run, due) {
      var c :| 0 <= c < |run| && run[c].Check? && due < run[c].now;
      if c < n {
        assert run[..n][c] == run[c];
      }
    }
  }
}

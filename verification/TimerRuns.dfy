/** Whole runs of the timing wheel: any calls of a client, in any order, with any clock readings. */
module TimerRuns {
  import opened TimerSpec
  import opened TimingWheel

  datatype Call = Request(command: Command) | Tick(now: nat)

  /** The event records the call. */
  predicate Records(call: Call, event: Event) {
    match call
    case Request(c) => event == Do(c)
    case Tick(now) => event.Check? && event.now == now
  }

  /** The wheel makes a legal run of the flat machine. The callbacks invoked are exactly those the run fires, in
      order of their ticks and no timer twice. */
  method Run(timer: Timer, script: seq<Call>) returns (ghost run: seq<Event>)
    requires timer.Valid() && timer.Idle()
    modifies timer.Cells(), timer.Invoked
    ensures timer.Valid() && timer.Idle()
    ensures |run| == |script| && forall i :: 0 <= i < |script| ==> Records(script[i], run[i])
    ensures LegalRun(old(timer.View()), run) && timer.View() == State(old(timer.View()), run)
    ensures timer.Invoked.Firings == old(timer.Invoked.Firings) + Fired(run) && InOrderOnce(Fired(run))
  {
    hide LegalRun, State, Fired, Apply, Checked, InOrderOnce, Timer.Valid;
    ghost var f := timer.View();
    timer.NothingOverdue();
    run := [];
    NothingRun(f);
    for i := 0 to |script|
      invariant timer.Valid() && timer.Idle() && fresh(timer.Linked - old(timer.Linked))
      invariant |run| == i && forall j :: 0 <= j < i ==> Records(script[j], run[j])
      invariant LegalRun(f, run) && timer.View() == State(f, run)
      invariant timer.Invoked.Firings == old(timer.Invoked.Firings) + Fired(run)
    {
      ghost var event := Make(timer, script[i]);
      RunSnoc(f, run, event);
      run := run + [event];
    }
    RunFiresInOrderOnce(f, run);
  }

  lemma NothingRun(f: Flat)
    ensures LegalRun(f, []) && State(f, []) == f && Fired([]) == []
  {
  }

  /** SetTimeout, then any calls: a timer that nobody names again fires exactly when some check goes past the tick
      that was current, after the timeout has elapsed. */
  method SetAndRun(timer: Timer, timeout: int, now: nat, script: seq<Call>) returns (id: nat, ghost run: seq<Event>)
    requires timer.Valid() && timer.Idle()
    modifies timer.Cells(), timer.Invoked
    ensures timer.Valid() && timer.Idle()
    ensures |run| == |script| && forall i :: 0 <= i < |script| ==> Records(script[i], run[i])
    ensures timer.Invoked.Firings == old(timer.Invoked.Firings) + Fired(run)
    ensures RunUntouched(run, id) && Representable(timer.Interval, now, timeout) ==>
              (FiresId(Fired(run), id) <==>
                 SomeCheckAfter(timer.Interval, run, now, timeout, old(timer.m_LastTimeval)))
  {
    hide LegalRun, State, Fired, Apply, Checked, InOrderOnce, RunUntouched, Representable, SomeCheckAfter, SetFor;
    hide Timer.Shape, Timer.AllPlaced, Timer.Mapped, Timer.DetachedDue;
    ghost var f := timer.View();
    timer.NothingOverdue();
    id := timer.SetTimeout(timeout, now);
    run := Run(timer, script);
    if RunUntouched(run, id) && Representable(timer.Interval, now, timeout) {
      SetThenFires(f, Command.SetTimeout(now, timeout), run, id);
    }
  }

  /** One call. */
  method Make(timer: Timer, call: Call) returns (ghost event: Event)
    requires timer.Valid() && timer.Idle()
    modifies timer.Cells(), timer.Invoked
    ensures timer.Valid() && timer.Idle() && fresh(timer.Linked - old(timer.Linked))
    ensures Records(call, event) && LegalEvent(old(timer.View()), event)
    ensures timer.View() == After(old(timer.View()), event)
    ensures timer.Invoked.Firings == old(timer.Invoked.Firings) + (if event.Check? then event.log else [])
  {
    hide Timer.Shape, Timer.AllPlaced, Timer.Mapped, Timer.DetachedDue, Apply, LegalLog, Replay;
    match call
    case Request(c) =>
      event := Do(c);
      timer.Execute(c);
    case Tick(now) =>
      ghost var log := timer.CheckTimer(now);
      event := Check(now, log);
  }
}
